/** Fairness of the shared round-robin counters, over every order in which the catalog's mutex lets picks
    through (catalog/catalog.go, `pickEntries`). */
module RoundRobin {
  import opened Text
  import opened Catalog

  /** Who picks: a modality of a model. */
  datatype User = User(model: string, modality: string)

  /** One `pickEntries` call with the round-robin strategy. */
  datatype Pick = Pick(key: string, user: User, pool: seq<PoolEntry>)

  ghost predicate Pools(picks: seq<Pick>) {
    forall p | p in picks :: p.pool != []
  }

  function Served(rr: Counters, p: Pick): PoolEntry
    requires p.pool != []
  {
    EntriesOf(rr, p.key, ROUND_ROBIN, p.pool).0.value[0]
  }

  /** The entry a counter points at, going round the pool. */
  function Turn(pool: seq<PoolEntry>, count: nat): PoolEntry
    requires pool != []
  {
    pool[count % |pool|]
  }

  lemma OnePick(rr: Counters, p: Pick)
    requires p.pool != []
    ensures Served(rr, p) == Turn(p.pool, Counter(rr, p.key))
    ensures forall key :: Counter(EntriesOf(rr, p.key, ROUND_ROBIN, p.pool).1, key) ==
                          Counter(rr, key) + if key == p.key then 1 else 0
  {
  }

  function AfterPicks(rr: Counters, picks: seq<Pick>): Counters
    requires Pools(picks)
    decreases picks
  {
    if picks == [] then rr
    else
      assert picks[0] in picks;
      AfterPicks(EntriesOf(rr, picks[0].key, ROUND_ROBIN, picks[0].pool).1, picks[1..])
  }

  /** How many of these picks are on the key. */
  function PicksOn(picks: seq<Pick>, key: string): nat {
    if picks == [] then 0 else (if picks[0].key == key then 1 else 0) + PicksOn(picks[1..], key)
  }

  /** The entries the picks on one key were served, in order. */
  function Entries(rr: Counters, picks: seq<Pick>, key: string): seq<PoolEntry>
    requires Pools(picks)
    decreases picks
  {
    if picks == [] then []
    else
      var p := picks[0];
      assert p in picks;
      (if p.key == key then [Served(rr, p)] else [])
      + Entries(EntriesOf(rr, p.key, ROUND_ROBIN, p.pool).1, picks[1..], key)
  }

  /** Whatever other keys are picked in between, a key's counter grows by exactly its own picks. */
  lemma {:induction false} CounterCountsPicks(rr: Counters, picks: seq<Pick>, key: string)
    requires Pools(picks)
    ensures Counter(AfterPicks(rr, picks), key) == Counter(rr, key) + PicksOn(picks, key)
    decreases picks
  {
    if picks != [] {
      assert picks[0] in picks;
      CounterCountsPicks(EntriesOf(rr, picks[0].key, ROUND_ROBIN, picks[0].pool).1, picks[1..], key);
    }
  }

  /** The key is only ever used with this pool. */
  ghost predicate OnePool(picks: seq<Pick>, key: string, pool: seq<PoolEntry>) {
    forall p | p in picks && p.key == key :: p.pool == pool
  }

  /** The i-th pick on a key used with one pool gets the pool's entry i mod n, counting on from the counter. */
  lemma {:induction false} PicksRotate(rr: Counters, picks: seq<Pick>, key: string, pool: seq<PoolEntry>)
    requires Pools(picks) && OnePool(picks, key, pool) && pool != []
    ensures |Entries(rr, picks, key)| == PicksOn(picks, key)
    ensures forall i | 0 <= i < |Entries(rr, picks, key)| ::
              Entries(rr, picks, key)[i] == Turn(pool, Counter(rr, key) + i)
    decreases picks
  {
    hide Turn, Served, EntriesOf, Counter;
    if picks != [] {
      var p := picks[0];
      assert p in picks;
      OnePick(rr, p);
      var rr1 := EntriesOf(rr, p.key, ROUND_ROBIN, p.pool).1;
      PicksRotate(rr1, picks[1..], key, pool);
      var rest := Entries(rr1, picks[1..], key);
      RotateOn(if p.key == key then [Served(rr, p)] else [], rest, pool, Counter(rr, key));
    }
  }

  lemma RotateOn(here: seq<PoolEntry>, rest: seq<PoolEntry>, pool: seq<PoolEntry>, c: nat)
    requires pool != [] && |here| <= 1 && forall i | 0 <= i < |here| :: here[i] == Turn(pool, c)
    requires forall i | 0 <= i < |rest| :: rest[i] == Turn(pool, c + |here| + i)
    ensures forall i | 0 <= i < |here + rest| :: (here + rest)[i] == Turn(pool, c + i)
  {
    hide Turn;
    forall i | 0 <= i < |here + rest| ensures (here + rest)[i] == Turn(pool, c + i) {
      if i >= |here| {
        assert (here + rest)[i] == rest[i - |here|];
        assert c + |here| + (i - |here|) == c + i;
      }
    }
  }

  // ---------- counting a residue ----------

  /** How many of `start`, ..., `start + m - 1` leave remainder `e` modulo `n`. */
  function Hits(start: nat, m: nat, n: nat, e: nat): nat
    requires n > 0
  {
    if m == 0 then 0 else Hits(start, m - 1, n, e) + (if (start + m - 1) % n == e then 1 else 0)
  }

  /** How many numbers below `k` do. */
  function Below(k: nat, n: nat, e: nat): nat
    requires n > 0
  {
    k / n + if k % n > e then 1 else 0
  }

  lemma NoMultipleBetween(a: int, q: int, n: int)
    requires n > 0 && a > q
    ensures a * n >= q * n + n
  {
    assert (a - q - 1) * n >= 0;
    assert (a - q - 1) * n == a * n - q * n - n;
  }

  lemma QuotientUnique(n: int, a: int, b: int, q: int, r: int)
    requires a * n + b == q * n + r && 0 <= b < n && 0 <= r < n
    ensures a == q && b == r
  {
    if a > q {
      NoMultipleBetween(a, q, n);
    } else if q > a {
      NoMultipleBetween(q, a, n);
    }
  }

  lemma DivideBack(k: nat, n: nat)
    requires n > 0
    ensures k == (k / n) * n + k % n && k % n < n
  {
  }

  lemma BelowAt(n: nat, q: nat, r: nat, e: nat)
    requires r < n
    ensures q * n + r >= 0 && Below(q * n + r, n, e) == q + if r > e then 1 else 0
  {
    var k := q * n + r;
    DivideBack(k, n);
    QuotientUnique(n, k / n, k % n, q, r);
  }

  lemma Carry(q: int, n: int)
    ensures q * n + n == (q + 1) * n
  {
  }

  lemma NextAt(n: nat, q: nat, r: nat, e: nat)
    requires r < n && e < n
    ensures q * n >= 0 && Below(q * n + r + 1, n, e) == Below(q * n + r, n, e) + if r == e then 1 else 0
  {
    hide Below;
    BelowAt(n, q, r, e);
    if r + 1 < n {
      BelowAt(n, q, r + 1, e);
    } else {
      Carry(q, n);
      BelowAt(n, q + 1, 0, e);
    }
  }

  lemma BelowNext(k: nat, n: nat, e: nat)
    requires e < n
    ensures Below(k + 1, n, e) == Below(k, n, e) + if k % n == e then 1 else 0
  {
    hide Below;
    DivideBack(k, n);
    NextAt(n, k / n, k % n, e);
  }

  lemma {:induction false} HitsAreBelow(start: nat, m: nat, n: nat, e: nat)
    requires e < n
    ensures Below(start + m, n, e) == Below(start, n, e) + Hits(start, m, n, e)
  {
    if m > 0 {
      HitsAreBelow(start, m - 1, n, e);
      BelowNext(start + m - 1, n, e);
    }
  }

  lemma SpreadAt(n: nat, q: nat, r: nat, p: nat, t: nat, e: nat)
    requires r < n && t < n && e < n
    ensures q * n + r >= 0 && p * n + t >= 0
    ensures var more := Below((q * n + r) + (p * n + t), n, e) - Below(q * n + r, n, e);
            p <= more <= p + if t == 0 then 0 else 1
  {
    hide Below;
    Spread(q, p, n);
    BelowAt(n, q, r, e);
    BelowAt(n, p, t, e);
    if r + t < n {
      BelowAt(n, q + p, r + t, e);
    } else {
      Carry(q + p, n);
      BelowAt(n, q + p + 1, r + t - n, e);
    }
  }

  lemma Spread(q: int, p: int, n: int)
    ensures (q + p) * n == q * n + p * n
  {
  }

  /** Among `m` consecutive numbers each remainder comes up m/n times, rounded down or up. */
  lemma HitsBalanced(start: nat, m: nat, n: nat, e: nat)
    requires e < n
    ensures m / n <= Hits(start, m, n, e) <= m / n + if m % n == 0 then 0 else 1
  {
    hide Below, Hits;
    HitsAreBelow(start, m, n, e);
    DivideBack(start, n);
    DivideBack(m, n);
    SpreadAt(n, start / n, start % n, m / n, m % n, e);
  }

  // ---------- fairness ----------

  function Occurrences(es: seq<PoolEntry>, x: PoolEntry): nat {
    if es == [] then 0 else Occurrences(es[..|es| - 1], x) + (if es[|es| - 1] == x then 1 else 0)
  }

  lemma {:induction false} OccurrencesAreHits(es: seq<PoolEntry>, pool: seq<PoolEntry>, start: nat, e: nat)
    requires e < |pool| && Distinct(pool)
    requires forall i | 0 <= i < |es| :: es[i] == Turn(pool, start + i)
    ensures Occurrences(es, pool[e]) == Hits(start, |es|, |pool|, e)
  {
    if es != [] {
      var m := |es| - 1;
      OccurrencesAreHits(es[..m], pool, start, e);
      var k := (start + m) % |pool|;
      assert 0 <= k < |pool|;
      assert es[m] == pool[k];
    }
  }

  /** In any lock order of picks, if a key is used with one pool of distinct entries, then in every window of
      consecutive picks on that key each entry is served its even share, rounded down or up. */
  lemma RoundRobinIsFair(rr: Counters, picks: seq<Pick>, key: string, pool: seq<PoolEntry>, a: nat, m: nat, e: nat)
    requires Pools(picks) && OnePool(picks, key, pool) && Distinct(pool) && e < |pool|
    requires a + m <= PicksOn(picks, key)
    ensures |Entries(rr, picks, key)| == PicksOn(picks, key)
    ensures var times := Occurrences(Entries(rr, picks, key)[a..a + m], pool[e]);
            m / |pool| <= times <= m / |pool| + if m % |pool| == 0 then 0 else 1
  {
    hide Turn, Entries, PicksOn;
    PicksRotate(rr, picks, key, pool);
    var window := Entries(rr, picks, key)[a..a + m];
    var start := Counter(rr, key) + a;
    forall i | 0 <= i < |window| ensures window[i] == Turn(pool, start + i) {
      assert window[i] == Entries(rr, picks, key)[a + i];
      assert start + i == Counter(rr, key) + (a + i);
    }
    OccurrencesAreHits(window, pool, start, e);
    HitsBalanced(start, m, |pool|, e);
  }

  // ---------- models that share a counter ----------

  /** What one user's picks on one key were served, in order. */
  function ServedTo(rr: Counters, picks: seq<Pick>, key: string, user: User): seq<PoolEntry>
    requires Pools(picks)
    decreases picks
  {
    if picks == [] then []
    else
      var p := picks[0];
      assert p in picks;
      (if p.key == key && p.user == user then [Served(rr, p)] else [])
      + ServedTo(EntriesOf(rr, p.key, ROUND_ROBIN, p.pool).1, picks[1..], key, user)
  }

  /** Among these `m` servings, entry `e` of the pool has its even share, rounded down or up. */
  ghost predicate EvenShare(es: seq<PoolEntry>, a: nat, m: nat, pool: seq<PoolEntry>, e: nat)
    requires a + m <= |es| && e < |pool|
  {
    m / |pool| <= Occurrences(es[a..a + m], pool[e]) <= m / |pool| + if m % |pool| == 0 then 0 else 1
  }

  /** In every window of consecutive picks of the user, each entry of its pool is served its even share. */
  ghost predicate Fair(rr: Counters, picks: seq<Pick>, key: string, user: User, pool: seq<PoolEntry>)
    requires Pools(picks)
  {
    var es := ServedTo(rr, picks, key, user);
    forall a: nat, m: nat, e: nat | a + m <= |es| && e < |pool| :: EvenShare(es, a, m, pool, e)
  }

  /** Only this user picks on the key. */
  ghost predicate OneUser(picks: seq<Pick>, key: string, user: User) {
    forall p | p in picks && p.key == key :: p.user == user
  }

  lemma {:induction false} OnlyOneUser(rr: Counters, picks: seq<Pick>, key: string, user: User)
    requires Pools(picks) && OneUser(picks, key, user)
    ensures ServedTo(rr, picks, key, user) == Entries(rr, picks, key)
    decreases picks
  {
    hide Served, EntriesOf;
    if picks != [] {
      assert picks[0] in picks;
      OnlyOneUser(EntriesOf(rr, picks[0].key, ROUND_ROBIN, picks[0].pool).1, picks[1..], key, user);
    }
  }

  lemma {:induction false} ServedAppend(
    rr: Counters, first: seq<Pick>, rest: seq<Pick>, key: string, user: User)
    requires Pools(first) && Pools(rest)
    ensures Pools(first + rest)
    ensures ServedTo(rr, first + rest, key, user) ==
            ServedTo(rr, first, key, user) + ServedTo(AfterPicks(rr, first), rest, key, user)
    decreases first
  {
    hide Served, EntriesOf;
    if first == [] {
      assert first + rest == rest;
    } else {
      var p := first[0];
      assert p in first;
      assert (first + rest)[0] == p && (first + rest)[1..] == first[1..] + rest;
      var rr1 := EntriesOf(rr, p.key, ROUND_ROBIN, p.pool).1;
      ServedAppend(rr1, first[1..], rest, key, user);
      var here := if p.key == key && p.user == user then [Served(rr, p)] else [];
      var mid, end := ServedTo(rr1, first[1..], key, user), ServedTo(AfterPicks(rr, first), rest, key, user);
      assert ServedTo(rr, first + rest, key, user) == here + (mid + end);
      assert here + (mid + end) == (here + mid) + end;
    }
  }

  lemma ServedNothing(rr: Counters, key: string, user: User)
    ensures ServedTo(rr, [], key, user) == []
  {
  }

  lemma ServedFirst(rr: Counters, p: Pick, rest: seq<Pick>, key: string, user: User)
    requires p.pool != [] && Pools(rest)
    ensures Pools([p] + rest)
    ensures ServedTo(rr, [p] + rest, key, user) ==
            (if p.key == key && p.user == user then [Served(rr, p)] else [])
            + ServedTo(EntriesOf(rr, p.key, ROUND_ROBIN, p.pool).1, rest, key, user)
  {
    hide Served, EntriesOf;
    assert ([p] + rest)[1..] == rest;
  }

  function Repeat<T>(x: T, n: nat): seq<T> {
    if n == 0 then [] else [x] + Repeat(x, n - 1)
  }

  lemma {:induction false} Repeats(rr: Counters, p: Pick, n: nat, key: string, user: User)
    requires p.pool != [] && !(p.key == key && p.user == user)
    ensures Pools(Repeat(p, n)) && ServedTo(rr, Repeat(p, n), key, user) == []
    ensures Counter(AfterPicks(rr, Repeat(p, n)), key) == Counter(rr, key) + if p.key == key then n else 0
    decreases n
  {
    hide Served, EntriesOf, Counter;
    if n > 0 {
      var rr1 := EntriesOf(rr, p.key, ROUND_ROBIN, p.pool).1;
      OnePick(rr, p);
      Repeats(rr1, p, n - 1, key, user);
      assert Repeat(p, n)[1..] == Repeat(p, n - 1);
    }
  }

  /** Rounds of one pick of `p` and then as many of `filler` as it takes to go once round the pool of `p`. */
  function Starving(p: Pick, filler: Pick, rounds: nat): seq<Pick>
    requires p.pool != []
  {
    if rounds == 0 then []
    else [p] + (Repeat(filler, |p.pool| - 1) + Starving(p, filler, rounds - 1))
  }

  /** The key does not name the model. If another user has the key too, with any pool, an equal one included, there is
      a schedule in which every pick of the first is served the same entry, from any counters on and for ever. */
  lemma {:induction false} SharedKeyStarves(rr: Counters, p: Pick, filler: Pick, rounds: nat)
    requires p.pool != [] && filler.pool != [] && filler.key == p.key && filler.user != p.user
    ensures var picks := Starving(p, filler, rounds);
            Pools(picks) && ServedTo(rr, picks, p.key, p.user) == Repeat(Turn(p.pool, Counter(rr, p.key)), rounds)
    decreases rounds
  {
    hide Served, EntriesOf, Counter, Turn, ServedTo, AfterPicks;
    if rounds == 0 {
      ServedNothing(rr, p.key, p.user);
    } else {
      var fill := Repeat(filler, |p.pool| - 1);
      var rest := Starving(p, filler, rounds - 1);
      var rr1 := EntriesOf(rr, p.key, ROUND_ROBIN, p.pool).1;
      OnePick(rr, p);
      Repeats(rr1, filler, |p.pool| - 1, p.key, p.user);
      var rr2 := AfterPicks(rr1, fill);
      SharedKeyStarves(rr2, p, filler, rounds - 1);
      RoundAndRound(p.pool, Counter(rr, p.key));
      ServedAppend(rr1, fill, rest, p.key, p.user);
      ServedFirst(rr, p, fill + rest, p.key, p.user);
      var tail := ServedTo(rr2, rest, p.key, p.user);
      assert [] + tail == tail;
    }
  }

  lemma RoundAndRound(pool: seq<PoolEntry>, count: nat)
    requires pool != []
    ensures Turn(pool, count + |pool|) == Turn(pool, count)
  {
    var n := |pool|;
    DivideBack(count, n);
    DivideBack(count + n, n);
    Carry(count / n, n);
    QuotientUnique(n, (count + n) / n, (count + n) % n, count / n + 1, count % n);
  }

  /** On this key, only these users pick, each from its own pool. */
  ghost predicate Schedule(picks: seq<Pick>, key: string, users: map<User, seq<PoolEntry>>) {
    Pools(picks) && forall p | p in picks && p.key == key :: p.user in users && p.pool == users[p.user]
  }

  lemma {:induction false} StarvingUses(p: Pick, filler: Pick, rounds: nat, users: map<User, seq<PoolEntry>>)
    requires p.pool != [] && filler.pool != []
    requires p.user in users && p.pool == users[p.user] && filler.user in users && filler.pool == users[filler.user]
    ensures Schedule(Starving(p, filler, rounds), p.key, users)
    decreases rounds
  {
    hide Repeat;
    if rounds > 0 {
      var fill, rest := Repeat(filler, |p.pool| - 1), Starving(p, filler, rounds - 1);
      StarvingUses(p, filler, rounds - 1, users);
      RepeatHas(filler, |p.pool| - 1);
      forall q | q in [p] + (fill + rest)
        ensures q.pool != [] && (q.key == p.key ==> q.user in users && q.pool == users[q.user])
      {
        assert q == p || q in fill || q in rest;
      }
    }
  }

  lemma {:induction false} RepeatHas<T>(x: T, n: nat)
    ensures |Repeat(x, n)| == n && forall y | y in Repeat(x, n) :: y == x
  {
    if n > 0 {
      RepeatHas(x, n - 1);
    }
  }

  lemma {:induction false} NoneOf(es: seq<PoolEntry>, x: PoolEntry)
    requires forall i | 0 <= i < |es| :: es[i] != x
    ensures Occurrences(es, x) == 0
  {
    if es != [] {
      NoneOf(es[..|es| - 1], x);
    }
  }

  /** A user whose pool has at least two distinct entries is served fairly in every schedule, from all counters on,
      exactly when nobody else has its key. */
  lemma FairIffOwnKey(key: string, user: User, users: map<User, seq<PoolEntry>>)
    requires user in users && |users[user]| >= 2 && Distinct(users[user]) && forall u | u in users :: users[u] != []
    ensures users.Keys == {user} <==>
            forall rr, picks | Schedule(picks, key, users) :: Fair(rr, picks, key, user, users[user])
  {
    hide Turn, Counter, Entries, ServedTo, Occurrences;
    var pool := users[user];
    if users.Keys == {user} {
      forall rr, picks | Schedule(picks, key, users) ensures Fair(rr, picks, key, user, pool) {
        OwnKeyIsFair(rr, picks, key, user, pool);
      }
    } else {
      var other :| other in users && other != user;
      var p, filler := Pick(key, user, pool), Pick(key, other, users[other]);
      SharedKeyIsUnfair(p, filler);
      StarvingUses(p, filler, |pool|, users);
    }
  }

  lemma OwnKeyIsFair(rr: Counters, picks: seq<Pick>, key: string, user: User, pool: seq<PoolEntry>)
    requires Pools(picks) && OneUser(picks, key, user) && OnePool(picks, key, pool) && Distinct(pool) && pool != []
    ensures Fair(rr, picks, key, user, pool)
  {
    hide Turn, Counter, Entries, ServedTo, Occurrences, PicksOn;
    OnlyOneUser(rr, picks, key, user);
    PicksRotate(rr, picks, key, pool);
    var es := ServedTo(rr, picks, key, user);
    forall a: nat, m: nat, e: nat | a + m <= |es| && e < |pool| ensures EvenShare(es, a, m, pool, e) {
      RoundRobinIsFair(rr, picks, key, pool, a, m, e);
    }
  }

  lemma SharedKeyIsUnfair(p: Pick, filler: Pick)
    requires |p.pool| >= 2 && Distinct(p.pool) && filler.pool != [] && filler.key == p.key && filler.user != p.user
    ensures var picks := Starving(p, filler, |p.pool|);
            Pools(picks) && !Fair(map[], picks, p.key, p.user, p.pool)
  {
    hide ServedTo, Starving;
    var n := |p.pool|;
    var picks := Starving(p, filler, n);
    SharedKeyStarves(map[], p, filler, n);
    RepeatHas(Turn(p.pool, 0), n);
    var es := ServedTo(map[], picks, p.key, p.user);
    assert es[0..0 + n] == es;
    assert Turn(p.pool, 0) == p.pool[0];
    assert forall i | 0 <= i < |es| :: es[i] in es;
    NoneOf(es, p.pool[1]);
    assert n / n == 1;
    assert !EvenShare(es, 0, n, p.pool, 1);
  }

  // ---------- the users of a key in a catalog ----------

  /** A modality that goes round a pool under this key. */
  predicate UsesKey(doc: Document, u: User, key: string) {
    u.model in doc.models && u.modality in doc.models[u.model] &&
    var mod := doc.models[u.model][u.modality];
    StrategyOf(mod) == ROUND_ROBIN && mod.providers != [] && PoolKey(u.modality, mod.wire) == key
  }

  /** The users of a key, each with its pool. */
  function UsersOf(doc: Document, key: string): map<User, seq<PoolEntry>> {
    map model, name | model in doc.models && name in doc.models[model] && UsesKey(doc, User(model, name), key)
      :: User(model, name) := doc.models[model][name].providers
  }

  lemma UsersAre(doc: Document, key: string, u: User)
    ensures u in UsersOf(doc, key) <==> UsesKey(doc, u, key)
    ensures u in UsersOf(doc, key) ==> UsersOf(doc, key)[u] == doc.models[u.model][u.modality].providers != []
  {
    hide StrategyOf, PoolKey;
    assert u == User(u.model, u.modality);
  }

  /** Every resolution that moves a counter is one pick of one of the key's users from its own pool, whether or not
      the target it picks can then be built. */
  lemma ResolutionIsAPick(
    doc: Document, rr: Counters, model: string, wire: string, hint: string, r: Result<Plan, ResolveError>, rr': Counters)
    requires Resolves(doc, rr, model, wire, hint, r, rr') && rr' != rr
    ensures exists p: Pick | p.user in UsersOf(doc, p.key) && p.pool == UsersOf(doc, p.key)[p.user] != [] ::
              && p.user.model == model && doc.models[model][p.user.modality].wire == wire
              && Pools([p]) && rr' == AfterPicks(rr, [p])
              && (r.Ok? ==> |r.value.targets| == 1 && TargetOf(doc, model, Served(rr, p), wire) == Ok(r.value.targets[0]))
  {
    hide Trim, Picked, TargetOf, SurfaceOf, Counter;
    var m := doc.models[model];
    var name := Picked(Candidates(m, wire), hint).value;
    PickedIsCandidate(Candidates(m, wire), hint);
    var u := User(model, name);
    var p := Pick(PoolKey(name, wire), u, m[name].providers);
    UsersAre(doc, p.key, u);
    OnePickAfter(rr, p);
    assert Pools([p]);
  }

  lemma OnePickAfter(rr: Counters, p: Pick)
    requires p.pool != []
    ensures Pools([p]) && AfterPicks(rr, [p]) == EntriesOf(rr, p.key, ROUND_ROBIN, p.pool).1
  {
    hide EntriesOf;
    assert [p][1..] == [];
  }

  /** And every user can pick: a request that hints at its modality by name does. */
  lemma UserCanPick(doc: Document, key: string, u: User)
    requires u in UsersOf(doc, key) && !Blank(u.modality) && Trim(u.modality) == u.modality
    ensures var m := doc.models[u.model];
            Picked(Candidates(m, m[u.modality].wire), u.modality) == Ok(u.modality)
  {
    hide Trim, StrategyOf, PoolKey;
    UsersAre(doc, key, u);
  }

  /** In a catalog, a round-robin modality with at least two distinct pool entries rotates fairly under every load
      exactly when no other modality of any model has its name and wire, or spells the same key otherwise. */
  lemma CatalogRotatesIff(doc: Document, key: string, u: User)
    requires UsesKey(doc, u, key) && |doc.models[u.model][u.modality].providers| >= 2
    requires Distinct(doc.models[u.model][u.modality].providers)
    ensures (forall w | UsesKey(doc, w, key) :: w == u) <==>
            forall rr, picks | Schedule(picks, key, UsersOf(doc, key)) ::
              Fair(rr, picks, key, u, doc.models[u.model][u.modality].providers)
  {
    hide UsesKey, UsersOf, Schedule, Fair;
    forall w { UsersAre(doc, key, w); }
    FairIffOwnKey(key, u, UsersOf(doc, key));
    assert u in UsersOf(doc, key);
  }
}
