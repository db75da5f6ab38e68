/** Outgoing request headers: copying the client's, stripping its credentials and injecting the
    upstream's (credential/inject/inject.go, credential/inject/spec.go, passthrough/adapter.go). */
module Inject {
  import opened Text
  import opened Payload
  import S = Substitute

  /** An `http.Header`: canonical name to the values under it. */
  type Header = map<string, seq<string>>

  function ValuesOf(h: Header, name: string): seq<string> {
    if name in h then h[name] else []
  }

  predicate IsTokenChar(c: char) {
    || 'a' <= c <= 'z' || 'A' <= c <= 'Z' || '0' <= c <= '9'
    || c == '!' || '#' <= c <= '\'' || c == '*' || c == '+' || c == '-' || c == '.'
    || c == '^' || c == '_' || c == '`' || c == '|' || c == '~'
  }

  /** Upper case at the start and after each hyphen, lower case elsewhere. */
  function Title(s: string): (r: string)
    ensures |r| == |s|
    ensures forall i | 0 <= i < |s| :: r[i] == if i == 0 || s[i - 1] == '-' then UpperChar(s[i]) else LowerChar(s[i])
  {
    seq(|s|, i requires 0 <= i < |s| => if i == 0 || s[i - 1] == '-' then UpperChar(s[i]) else LowerChar(s[i]))
  }

  /** `textproto.CanonicalMIMEHeaderKey`: names with a byte no header name may hold are left alone. */
  function Canonical(name: string): string {
    if forall c | c in name :: IsTokenChar(c) then Title(name) else name
  }

  const AUTHORIZATION := "Authorization"
  const X_API_KEY := "X-Api-Key"

  lemma AuthorizationName()
    ensures Canonical("Authorization") == AUTHORIZATION
  {
    var a := Title("Authorization");
    assert a[0] == 'A' && a[1] == 'u' && a[2] == 't' && a[3] == 'h' && a[4] == 'o' && a[5] == 'r';
    assert a[6] == 'i' && a[7] == 'z' && a[8] == 'a' && a[9] == 't' && a[10] == 'i' && a[11] == 'o' && a[12] == 'n';
    assert a == AUTHORIZATION;
  }

  lemma ApiKeyName()
    ensures Canonical("x-api-key") == X_API_KEY && Canonical("X-Api-Key") == X_API_KEY
  {
    var a, b := Title("x-api-key"), Title("X-Api-Key");
    assert a[0] == 'X' && a[1] == '-' && a[2] == 'A' && a[3] == 'p' && a[4] == 'i';
    assert a[5] == '-' && a[6] == 'K' && a[7] == 'e' && a[8] == 'y';
    assert b[0] == 'X' && b[1] == '-' && b[2] == 'A' && b[3] == 'p' && b[4] == 'i';
    assert b[5] == '-' && b[6] == 'K' && b[7] == 'e' && b[8] == 'y';
    assert a == X_API_KEY && b == X_API_KEY;
  }

  /** The names an HTTP server hands over are canonical. */
  predicate CanonicalKeys(h: Header) {
    forall k | k in h :: Canonical(k) == k
  }

  // ---------- templates to header values ----------

  type Spec = map<string, string>

  datatype InjectError =
    | BadTemplate(name: string, cause: S.SubstError)
    | EmptyValue(name: string)
    | UnknownPreset(preset: string)
    | PresetNotForOAuth

  function MaterialValues(m: Material): S.Values {
    match m.kind
    case ApiKeyKind => S.Values(Trim(m.apiKey), "", "", "")
    case OAuthKind => S.Values("", Trim(m.accessToken), m.Extra("account_id"), m.Extra("project_id"))
  }

  /** The header a spec entry sets: `canonicalHeader` as `Header.Set` then files it. */
  function TargetName(name: string): string {
    var lower := Lower(Trim(name));
    Canonical(if lower == "authorization" then "Authorization"
              else if lower == "x-api-key" then "X-Api-Key"
              else lower)
  }

  function EntryValue(name: string, tmpl: string, v: S.Values): Result<string, InjectError> {
    match S.Sequential(tmpl, v)
    case Err(e) => Err(BadTemplate(name, e))
    case Ok(x) => if x == "" then Err(EmptyValue(name)) else Ok(x)
  }

  /** `ApplySpec` when the map is iterated in this order: each entry sets its header, the first bad one stops. */
  function ApplyInOrder(order: seq<string>, h: Header, spec: Spec, v: S.Values): Result<Header, InjectError>
    requires forall n | n in order :: n in spec
    decreases order
  {
    if order == [] then Ok(h)
    else
      match EntryValue(order[0], spec[order[0]], v)
      case Err(e) => Err(e)
      case Ok(x) => ApplyInOrder(order[1..], h[TargetName(order[0]) := [x]], spec, v)
  }

  // ---------- the whole route ----------

  /** Catalog inject config of one hop, and an adapter's fallback. */
  datatype Route = Route(spec: Spec, preset: string)

  function Preset(h: Header, m: Material, preset: string): Result<Header, InjectError> {
    var p := Lower(Trim(preset));
    match m.kind
    case ApiKeyKind =>
      if p == "" || p == "bearer" then Ok(h[AUTHORIZATION := ["Bearer " + Trim(m.apiKey)]])
      else if p == "x-api-key" then Ok(h[X_API_KEY := [Trim(m.apiKey)]])
      else Err(UnknownPreset(p))
    case OAuthKind =>
      if p == "" || p == "bearer" then Ok(h[AUTHORIZATION := ["Bearer " + Trim(m.accessToken)]])
      else if p == "x-api-key" then Err(PresetNotForOAuth)
      else Err(UnknownPreset(p))
  }

  const AUTH_NAMES: set<string> := {AUTHORIZATION, X_API_KEY}

  /** The header map that will be iterated, empty when a preset applies instead. */
  function ActiveSpec(route: Route, fallback: Route): Spec {
    if route.spec != map[] then route.spec
    else if Trim(route.preset) != "" then map[]
    else fallback.spec
  }

  function ActivePreset(route: Route, fallback: Route): string {
    if Trim(route.preset) != "" then Trim(route.preset) else fallback.preset
  }

  /** `ApplyRoute`, for one iteration order of the header map it uses. */
  function RouteInOrder(order: seq<string>, h: Header, m: Material, route: Route, fallback: Route): Result<Header, InjectError>
    requires forall n | n in order :: n in ActiveSpec(route, fallback)
  {
    if ActiveSpec(route, fallback) != map[]
    then ApplyInOrder(order, h - AUTH_NAMES, ActiveSpec(route, fallback), MaterialValues(m))
    else Preset(h - AUTH_NAMES, m, ActivePreset(route, fallback))
  }

  /** The headers of a request after `src` was added to it, value by value. */
  function Copied(h: Header, src: Header): Header {
    map k | k in h.Keys + src.Keys && (k in h || src[k] != []) :: ValuesOf(h, k) + ValuesOf(src, k)
  }

  /** `Header.Add` of several values in a row. */
  function WithAdded(h: Header, k: string, vals: seq<string>): Header {
    if vals == [] then h else h[k := ValuesOf(h, k) + vals]
  }

  lemma CopiedNothing(h: Header)
    ensures Copied(h, map[]) == h
  {
    assert forall k | k in h :: ValuesOf(h, k) + [] == h[k];
  }

  lemma CopiedAt(h: Header, src: Header, n: string)
    ensures n in Copied(h, src) <==> n in h || (n in src && src[n] != [])
    ensures n in Copied(h, src) ==> Copied(h, src)[n] == ValuesOf(h, n) + ValuesOf(src, n)
  {
  }

  lemma CopiedOneMore(h: Header, src: Header, rest: set<string>, k: string)
    requires rest <= src.Keys && k in rest
    ensures Copied(h, src - (rest - {k})) == WithAdded(Copied(h, src - rest), k, src[k])
  {
    hide Copied;
    var before, after := src - rest, src - (rest - {k});
    var l, r := Copied(h, after), WithAdded(Copied(h, before), k, src[k]);
    assert ValuesOf(h, k) + [] == ValuesOf(h, k);
    forall n ensures (n in l <==> n in r) && (n in l ==> l[n] == r[n]) {
      CopiedAt(h, before, n);
      CopiedAt(h, after, n);
      assert n != k ==> ValuesOf(before, n) == ValuesOf(after, n);
    }
  }

  /** Everything the relay does to the headers of a fresh request. */
  function Outbound(order: seq<string>, src: Header, m: Material, route: Route, fallback: Route): Result<Header, InjectError>
    requires forall n | n in order :: n in ActiveSpec(route, fallback)
  {
    RouteInOrder(order, Copied(map[], src), m, route, fallback)
  }

  ghost predicate Outcome(err: Option<InjectError>, h: Header, r: Result<Header, InjectError>) {
    match r
    case Ok(x) => err.None? && h == x
    case Err(e) => err == Some(e)
  }

  /** An outbound `http.Request`, as far as its headers go. */
  class OutRequest {
    var header: Header

    constructor ()
      ensures header == map[]
    {
      header := map[];
    }

    method Set(name: string, value: string)
      modifies this
      ensures header == old(header)[Canonical(name) := [value]]
    {
      header := header[Canonical(name) := [value]];
    }

    method Add(name: string, value: string)
      modifies this
      ensures header == old(header)[Canonical(name) := ValuesOf(old(header), Canonical(name)) + [value]]
    {
      header := header[Canonical(name) := ValuesOf(header, Canonical(name)) + [value]];
    }

    method Del(name: string)
      modifies this
      ensures header == old(header) - {Canonical(name)}
    {
      header := header - {Canonical(name)};
    }

    method AddAll(k: string, vals: seq<string>)
      requires Canonical(k) == k
      modifies this
      ensures header == WithAdded(old(header), k, vals)
    {
      ghost var start := header;
      var i := 0;
      while i < |vals|
        invariant 0 <= i <= |vals|
        invariant header == WithAdded(start, k, vals[..i])
      {
        assert vals[..i + 1] == vals[..i] + [vals[i]];
        assert ValuesOf(start, k) + vals[..i + 1] == ValuesOf(start, k) + vals[..i] + [vals[i]];
        assert ValuesOf(start, k) + [] == ValuesOf(start, k);
        Add(k, vals[i]);
        i := i + 1;
      }
      assert vals[..i] == vals;
    }

    /** Whatever order the two loops visit names in, the result is the same. */
    method CopyHeaders(src: Header)
      requires CanonicalKeys(src)
      modifies this
      ensures header == Copied(old(header), src)
    {
      ghost var start := header;
      var rest := src.Keys;
      CopiedNothing(start);
      assert src - rest == map[];
      while rest != {}
        invariant rest <= src.Keys
        invariant header == Copied(start, src - rest)
        decreases rest
      {
        var k :| k in rest;
        CopiedOneMore(start, src, rest, k);
        rest := rest - {k};
        AddAll(k, src[k]);
      }
      assert src - {} == src;
    }

    method StripClient()
      modifies this
      ensures header == old(header) - AUTH_NAMES
    {
      AuthorizationName();
      ApiKeyName();
      Del("Authorization");
      Del("x-api-key");
      Del("X-Api-Key");
    }

    /** The order the map happens to be iterated in is returned for the specification only. */
    method ApplySpec(m: Material, spec: Spec) returns (err: Option<InjectError>, ghost order: seq<string>)
      modifies this
      ensures Listing(order, spec.Keys)
      ensures Outcome(err, header, ApplyInOrder(order, old(header), spec, MaterialValues(m)))
    {
      hide TargetName, MaterialValues, ActiveSpec, S.Sequential;
      var v := MaterialValues(m);
      ghost var start := header;
      var rest := spec.Keys;
      err := None;
      order := [];
      while rest != {}
        invariant rest <= spec.Keys
        invariant Listing(order, spec.Keys - rest)
        invariant forall n | n in order :: n in spec
        invariant ApplyInOrder(order, start, spec, v) == Ok(header)
        decreases rest
      {
        var name :| name in rest;
        rest := rest - {name};
        ghost var tail := ListingOf(rest);
        assert forall n | n in order :: n in Elements(order);
        assert forall n | n in tail :: n in Elements(tail);
        OneMore(order, name, tail, start, spec, v);
        ListingExtended(order, name, tail, spec.Keys);
        order := order + [name];
        var val := S.SubstituteTemplate(spec[name], v);
        if val.Err? {
          return Some(BadTemplate(name, val.error)), order + tail;
        }
        if val.value == "" {
          return Some(EmptyValue(name)), order + tail;
        }
        header := header[TargetName(name) := [val.value]];
      }
      assert spec.Keys - rest == spec.Keys;
    }

    method ApplyPreset(m: Material, preset: string) returns (err: Option<InjectError>)
      modifies this
      ensures Outcome(err, header, Preset(old(header), m, preset))
    {
      AuthorizationName();
      ApiKeyName();
      var p := Lower(Trim(preset));
      match m.kind {
        case ApiKeyKind =>
          if p == "" || p == "bearer" {
            Set("Authorization", "Bearer " + Trim(m.apiKey));
          } else if p == "x-api-key" {
            Set("x-api-key", Trim(m.apiKey));
          } else {
            return Some(UnknownPreset(p));
          }
        case OAuthKind =>
          if p == "" || p == "bearer" {
            Set("Authorization", "Bearer " + Trim(m.accessToken));
          } else if p == "x-api-key" {
            return Some(PresetNotForOAuth);
          } else {
            return Some(UnknownPreset(p));
          }
      }
      err := None;
    }

    method ApplyRoute(m: Material, route: Route, fallback: Route) returns (err: Option<InjectError>, ghost order: seq<string>)
      modifies this
      ensures Listing(order, ActiveSpec(route, fallback).Keys)
      ensures Outcome(err, header, RouteInOrder(order, old(header), m, route, fallback))
    {
      StripClient();
      if route.spec != map[] {
        err, order := ApplySpec(m, route.spec);
        return;
      }
      order := [];
      var preset := Trim(route.preset);
      if preset != "" {
        err := ApplyPreset(m, preset);
        return;
      }
      if fallback.spec != map[] {
        err, order := ApplySpec(m, fallback.spec);
        return;
      }
      err := ApplyPreset(m, fallback.preset);
    }
  }

  /** `relay`: a fresh request gets the client's headers, then the route's credentials. */
  method Relay(src: Header, m: Material, route: Route, fallback: Route)
    returns (req: OutRequest, err: Option<InjectError>, ghost order: seq<string>)
    requires CanonicalKeys(src)
    ensures fresh(req)
    ensures Listing(order, ActiveSpec(route, fallback).Keys)
    ensures Outcome(err, req.header, Outbound(order, src, m, route, fallback))
  {
    req := new OutRequest();
    req.CopyHeaders(src);
    err, order := req.ApplyRoute(m, route, fallback);
  }

  // ---------- iteration orders ----------

  lemma ListingExtended(order: seq<string>, name: string, tail: seq<string>, keys: set<string>)
    requires name in keys && Listing(tail, keys - Elements(order) - {name})
    requires Distinct(order) && Elements(order) <= keys && name !in order
    ensures Listing(order + [name], Elements(order) + {name})
    ensures Listing(order + [name] + tail, keys)
  {
    var all := order + [name] + tail;
    assert Elements(order + [name]) == Elements(order) + {name};
    assert Elements(all) == Elements(order) + {name} + Elements(tail);
    forall i, j | 0 <= i < j < |all| ensures all[i] != all[j] {
      if j >= |order| + 1 {
        assert all[j] in Elements(tail);
        assert i <= |order| ==> all[i] in Elements(order) + {name};
      }
    }
  }

  lemma {:induction false} ApplySplit(o1: seq<string>, o2: seq<string>, h: Header, spec: Spec, v: S.Values)
    requires forall n | n in o1 + o2 :: n in spec
    ensures forall n | n in o1 :: n in spec
    ensures forall n | n in o2 :: n in spec
    ensures var first := ApplyInOrder(o1, h, spec, v);
            ApplyInOrder(o1 + o2, h, spec, v) ==
            if first.Err? then first else ApplyInOrder(o2, first.value, spec, v)
    decreases o1
  {
    hide EntryValue, TargetName;
    assert forall n | n in o1 :: n in o1 + o2;
    assert forall n | n in o2 :: n in o1 + o2;
    if o1 == [] {
      assert o1 + o2 == o2;
    } else {
      assert (o1 + o2)[1..] == o1[1..] + o2;
      assert (o1 + o2)[0] == o1[0];
      match EntryValue(o1[0], spec[o1[0]], v)
      case Err(_) =>
      case Ok(x) => ApplySplit(o1[1..], o2, h[TargetName(o1[0]) := [x]], spec, v);
    }
  }

  lemma OneMore(order: seq<string>, name: string, tail: seq<string>, h: Header, spec: Spec, v: S.Values)
    requires name in spec && (forall n | n in order + tail :: n in spec)
    requires (forall n | n in order :: n in spec) && ApplyInOrder(order, h, spec, v).Ok?
    ensures forall n | n in order + [name] + tail :: n in spec
    ensures forall n | n in order + [name] :: n in spec
    ensures var mid := ApplyInOrder(order, h, spec, v).value;
            match EntryValue(name, spec[name], v)
            case Err(e) => ApplyInOrder(order + [name] + tail, h, spec, v) == Err(e)
            case Ok(x) => ApplyInOrder(order + [name], h, spec, v) == Ok(mid[TargetName(name) := [x]])
  {
    hide EntryValue, TargetName;
    assert order + [name] + tail == order + ([name] + tail);
    ApplySplit(order, [name] + tail, h, spec, v);
    ApplySplit(order, [name], h, spec, v);
  }

  // ---------- iteration order ----------

  ghost predicate AllGood(spec: Spec, v: S.Values) {
    forall n | n in spec :: EntryValue(n, spec[n], v).Ok?
  }

  /** Entries that set the same header set it to the same value. */
  ghost predicate Agreeing(names: set<string>, spec: Spec, v: S.Values)
    requires names <= spec.Keys
  {
    forall a, b | a in names && b in names && TargetName(a) == TargetName(b) ::
      EntryValue(a, spec[a], v) == EntryValue(b, spec[b], v)
  }

  ghost function Targets(names: set<string>): set<string> {
    set n | n in names :: TargetName(n)
  }

  /** `r` is `h` with the headers of these entries set, each to its entry's value, and no other touched. */
  ghost predicate Written(names: set<string>, h: Header, spec: Spec, v: S.Values, r: Header)
    requires names <= spec.Keys
  {
    && r.Keys == h.Keys + Targets(names)
    && (forall n | n in names ::
          EntryValue(n, spec[n], v).Ok? && r[TargetName(n)] == [EntryValue(n, spec[n], v).value])
    && (forall k | k in h && k !in Targets(names) :: r[k] == h[k])
  }

  lemma WrittenUnique(names: set<string>, h: Header, spec: Spec, v: S.Values, r: Header, r': Header)
    requires names <= spec.Keys && Written(names, h, spec, v, r) && Written(names, h, spec, v, r')
    ensures r == r'
  {
    hide EntryValue, TargetName;
    forall k | k in r ensures r[k] == r'[k] {
      if k in Targets(names) {
        var n :| n in names && TargetName(n) == k;
        assert r[TargetName(n)] == r'[TargetName(n)];
      }
    }
  }

  /** Whether a spec can be applied does not depend on the order its map is iterated in. */
  lemma {:induction false} VerdictIsOrderFree(order: seq<string>, h: Header, spec: Spec, v: S.Values)
    requires forall n | n in order :: n in spec
    ensures ApplyInOrder(order, h, spec, v).Ok? <==> forall n | n in order :: EntryValue(n, spec[n], v).Ok?
    decreases order
  {
    hide EntryValue, TargetName;
    if order != [] {
      assert forall n | n in order :: n == order[0] || n in order[1..];
      match EntryValue(order[0], spec[order[0]], v)
      case Err(_) => assert order[0] in order;
      case Ok(x) => VerdictIsOrderFree(order[1..], h[TargetName(order[0]) := [x]], spec, v);
    }
  }

  lemma {:induction false} ApplyWrites(order: seq<string>, h: Header, spec: Spec, v: S.Values)
    requires Elements(order) <= spec.Keys && Agreeing(Elements(order), spec, v)
    requires forall n | n in order :: EntryValue(n, spec[n], v).Ok?
    ensures ApplyInOrder(order, h, spec, v).Ok?
    ensures Written(Elements(order), h, spec, v, ApplyInOrder(order, h, spec, v).value)
    decreases order
  {
    hide EntryValue, TargetName;
    if order == [] {
      assert Targets(Elements(order)) == {};
    } else {
      var n, rest := order[0], order[1..];
      var x := EntryValue(n, spec[n], v).value;
      var h1 := h[TargetName(n) := [x]];
      assert Elements(order) == {n} + Elements(rest);
      ApplyWrites(rest, h1, spec, v);
      StepWrites(n, Elements(rest), h, spec, v, ApplyInOrder(rest, h1, spec, v).value);
    }
  }

  lemma StepTarget(n: string, rest: set<string>, h: Header, spec: Spec, v: S.Values, r: Header)
    requires n in spec && rest <= spec.Keys && Agreeing({n} + rest, spec, v) && EntryValue(n, spec[n], v).Ok?
    requires Written(rest, h[TargetName(n) := [EntryValue(n, spec[n], v).value]], spec, v, r)
    ensures TargetName(n) in r && r[TargetName(n)] == [EntryValue(n, spec[n], v).value]
  {
    hide EntryValue, TargetName;
    if TargetName(n) in Targets(rest) {
      var b :| b in rest && TargetName(b) == TargetName(n);
      assert n in {n} + rest && b in {n} + rest;
    }
  }

  lemma StepWrites(n: string, rest: set<string>, h: Header, spec: Spec, v: S.Values, r: Header)
    requires n in spec && rest <= spec.Keys && Agreeing({n} + rest, spec, v) && EntryValue(n, spec[n], v).Ok?
    requires Written(rest, h[TargetName(n) := [EntryValue(n, spec[n], v).value]], spec, v, r)
    ensures Written({n} + rest, h, spec, v, r)
  {
    hide EntryValue, TargetName, Agreeing;
    StepTarget(n, rest, h, spec, v, r);
    assert Targets({n} + rest) == {TargetName(n)} + Targets(rest);
  }

  /** A spec whose entries are all good yields the same headers in every iteration order exactly when
      entries naming the same header agree on its value. */
  lemma OrderFreeIffAgreeing(h: Header, spec: Spec, v: S.Values)
    requires AllGood(spec, v)
    ensures Agreeing(spec.Keys, spec, v) <==>
            forall o1, o2 | Listing(o1, spec.Keys) && Listing(o2, spec.Keys) ::
              ApplyInOrder(o1, h, spec, v) == ApplyInOrder(o2, h, spec, v)
  {
    hide EntryValue, TargetName;
    if Agreeing(spec.Keys, spec, v) {
      forall o1, o2 | Listing(o1, spec.Keys) && Listing(o2, spec.Keys)
        ensures ApplyInOrder(o1, h, spec, v) == ApplyInOrder(o2, h, spec, v)
      {
        ApplyWrites(o1, h, spec, v);
        ApplyWrites(o2, h, spec, v);
        WrittenUnique(spec.Keys, h, spec, v, ApplyInOrder(o1, h, spec, v).value, ApplyInOrder(o2, h, spec, v).value);
      }
    } else {
      var a, b :| a in spec && b in spec && TargetName(a) == TargetName(b) &&
                  EntryValue(a, spec[a], v) != EntryValue(b, spec[b], v);
      var o1, o2 := LastOf(a, spec.Keys), LastOf(b, spec.Keys);
      LastWins(o1, a, h, spec, v);
      LastWins(o2, b, h, spec, v);
    }
  }

  ghost function LastOf(a: string, keys: set<string>): (order: seq<string>)
    requires a in keys
    ensures Listing(order, keys) && order != [] && order[|order| - 1] == a
  {
    var front := ListingOf(keys - {a});
    assert a !in Elements(front);
    assert Elements(front + [a]) == Elements(front) + {a};
    front + [a]
  }

  lemma LastWins(order: seq<string>, a: string, h: Header, spec: Spec, v: S.Values)
    requires Elements(order) <= spec.Keys && AllGood(spec, v)
    requires order != [] && order[|order| - 1] == a
    ensures ApplyInOrder(order, h, spec, v).Ok?
    ensures TargetName(a) in ApplyInOrder(order, h, spec, v).value
    ensures ApplyInOrder(order, h, spec, v).value[TargetName(a)] == [EntryValue(a, spec[a], v).value]
  {
    hide EntryValue, TargetName;
    var front := order[..|order| - 1];
    assert order == front + [a];
    assert forall n | n in order :: n in Elements(order);
    VerdictIsOrderFree(front, h, spec, v);
    ApplySplit(front, [a], h, spec, v);
  }

  // ---------- what reaches the upstream ----------

  /** Two clients that differ at most in the credentials they sent the gateway. */
  ghost predicate SameButAuth(a: Header, b: Header) {
    forall k | k !in AUTH_NAMES :: ValuesOf(a, k) == ValuesOf(b, k)
  }

  /** For one iteration order, the outgoing request is the same for both clients: the same headers, or the same error. */
  lemma SameOrderSameRequest(
    order: seq<string>, a: Header, b: Header, m: Material, route: Route, fallback: Route)
    requires Listing(order, ActiveSpec(route, fallback).Keys) && SameButAuth(a, b)
    ensures forall n | n in order :: n in ActiveSpec(route, fallback)
    ensures Outbound(order, a, m, route, fallback) == Outbound(order, b, m, route, fallback)
  {
    hide EntryValue, TargetName, MaterialValues, ActiveSpec, ActivePreset, Preset, SameButAuth, Copied;
    assert forall n | n in order :: n in Elements(order);
    CopiedSameButAuth(a, b);
  }

  /** The outgoing headers never depend on the client's own credentials, nor on the order the inject map is
      iterated in: success is the same for both clients and all orders, and so are the headers when
      entries naming one header agree on its value. */
  lemma ClientAuthNeverMatters(
    o1: seq<string>, o2: seq<string>, a: Header, b: Header, m: Material, route: Route, fallback: Route)
    requires Listing(o1, ActiveSpec(route, fallback).Keys) && Listing(o2, ActiveSpec(route, fallback).Keys)
    requires SameButAuth(a, b)
    ensures forall n | n in o1 || n in o2 :: n in ActiveSpec(route, fallback)
    ensures var ra, rb := Outbound(o1, a, m, route, fallback), Outbound(o2, b, m, route, fallback);
            && (ra.Ok? <==> rb.Ok?)
            && (ra.Ok? && Agreeing(ActiveSpec(route, fallback).Keys, ActiveSpec(route, fallback), MaterialValues(m))
                ==> ra == rb)
  {
    hide EntryValue, TargetName, MaterialValues, ActiveSpec, ActivePreset, Preset;
    var spec, v := ActiveSpec(route, fallback), MaterialValues(m);
    var h := Copied(map[], a) - AUTH_NAMES;
    assert forall n | n in o1 :: n in Elements(o1);
    assert forall n | n in o2 :: n in Elements(o2);
    assert forall n | n in spec :: n in o1 && n in o2;
    CopiedSameButAuth(a, b);
    if spec != map[] {
      VerdictIsOrderFree(o1, h, spec, v);
      VerdictIsOrderFree(o2, h, spec, v);
      if Outbound(o1, a, m, route, fallback).Ok? {
        OrderFreeIffAgreeing(h, spec, v);
      }
    }
  }

  lemma CopiedSameButAuth(a: Header, b: Header)
    requires SameButAuth(a, b)
    ensures Copied(map[], a) - AUTH_NAMES == Copied(map[], b) - AUTH_NAMES
  {
    var l, r := Copied(map[], a) - AUTH_NAMES, Copied(map[], b) - AUTH_NAMES;
    forall k | k !in AUTH_NAMES ensures (k in l <==> k in r) && (k in l ==> l[k] == r[k]) {
      assert ValuesOf(a, k) == ValuesOf(b, k);
      assert ValuesOf(map[], k) == [];
    }
  }

  /** The one header a preset sets. */
  function PresetName(preset: string): string {
    if Lower(Trim(preset)) == "x-api-key" then X_API_KEY else AUTHORIZATION
  }

  /** Every client header the route does not itself set goes through unchanged, and a credential header
      goes out only if the route's map or preset set it. */
  lemma OtherHeadersKept(order: seq<string>, src: Header, m: Material, route: Route, fallback: Route, k: string)
    requires Listing(order, ActiveSpec(route, fallback).Keys)
    requires k !in Targets(ActiveSpec(route, fallback).Keys)
    ensures forall n | n in order :: n in ActiveSpec(route, fallback)
    ensures var r := Outbound(order, src, m, route, fallback);
            r.Ok? ==>
              && (k !in AUTH_NAMES ==> ValuesOf(r.value, k) == ValuesOf(src, k))
              && (k in AUTH_NAMES ==>
                    (k in r.value <==>
                     ActiveSpec(route, fallback) == map[] && k == PresetName(ActivePreset(route, fallback))))
  {
    hide EntryValue, TargetName, MaterialValues, ActiveSpec, ActivePreset, Preset;
    var spec, v := ActiveSpec(route, fallback), MaterialValues(m);
    assert forall n | n in order :: n in Elements(order);
    var h := Copied(map[], src) - AUTH_NAMES;
    assert k !in AUTH_NAMES ==> ValuesOf(h, k) == ValuesOf(src, k) by {
      assert ValuesOf(map[], k) + ValuesOf(src, k) == ValuesOf(src, k);
    }
    if spec != map[] {
      Untouched(order, h, spec, v, k);
    } else {
      PresetTouches(h, m, ActivePreset(route, fallback), k);
    }
  }

  lemma PresetTouches(h: Header, m: Material, preset: string, k: string)
    ensures Preset(h, m, preset).Ok? && k !in AUTH_NAMES ==> ValuesOf(Preset(h, m, preset).value, k) == ValuesOf(h, k)
    ensures Preset(h, m, preset).Ok? && k in AUTH_NAMES && k !in h ==>
              (k in Preset(h, m, preset).value <==> k == PresetName(preset))
  {
    hide Trim, Lower;
  }

  lemma {:induction false} Untouched(order: seq<string>, h: Header, spec: Spec, v: S.Values, k: string)
    requires (forall n | n in order :: n in spec) && (forall n | n in order :: TargetName(n) != k)
    ensures var r := ApplyInOrder(order, h, spec, v);
            r.Ok? ==> (k in r.value <==> k in h) && (k in h ==> r.value[k] == h[k])
    decreases order
  {
    hide EntryValue, TargetName;
    if order != [] {
      match EntryValue(order[0], spec[order[0]], v)
      case Err(_) =>
      case Ok(x) => Untouched(order[1..], h[TargetName(order[0]) := [x]], spec, v, k);
    }
  }

  /** An inject map with two spellings of one header. */
  const COLLIDING: Spec := map["x-a" := "one", " x-a" := "two"]

  const NO_VALUES := S.Values("", "", "", "")

  /** Its outcome depends on the iteration order. */
  lemma CollidingNames() returns (o1: seq<string>, o2: seq<string>)
    ensures Listing(o1, COLLIDING.Keys) && Listing(o2, COLLIDING.Keys)
    ensures forall n | n in o1 || n in o2 :: n in COLLIDING
    ensures ApplyInOrder(o1, map[], COLLIDING, NO_VALUES) != ApplyInOrder(o2, map[], COLLIDING, NO_VALUES)
  {
    hide EntryValue, TargetName, ApplyInOrder;
    var a, b := "x-a", " x-a";
    OneTarget();
    LiteralEntry(a, "one", NO_VALUES);
    LiteralEntry(b, "two", NO_VALUES);
    o1, o2 := LastOf(a, COLLIDING.Keys), LastOf(b, COLLIDING.Keys);
    assert forall n | n in o1 :: n in Elements(o1);
    assert forall n | n in o2 :: n in Elements(o2);
    assert |a| != |b| && COLLIDING[a] == "one" && COLLIDING[b] == "two";
    LastWins(o1, a, map[], COLLIDING, NO_VALUES);
    LastWins(o2, b, map[], COLLIDING, NO_VALUES);
    assert "one"[0] != "two"[0];
  }

  lemma OneTarget()
    ensures TargetName("x-a") == TargetName(" x-a")
  {
    hide Trim, Lower, Canonical;
    LeadingSpace("x-a");
    assert [' '] + "x-a" == " x-a";
  }

  lemma LeadingSpace(s: string)
    ensures Trim([' '] + s) == Trim(s)
  {
    assert ([' '] + s)[1..] == s;
  }

  lemma LiteralEntry(name: string, t: string, v: S.Values)
    requires t != "" && '$' !in t
    ensures EntryValue(name, t, v) == Ok(t)
  {
    forall h: S.Hole ensures !Contains(t, S.Mark(h)) {
      forall k: nat { S.OccursChars(t, k, S.Mark(h)); }
    }
    forall k: nat ensures !OccursAt(t, k, S.DOLLAR_BRACE) {
      S.OccursChars(t, k, S.DOLLAR_BRACE);
      assert S.DOLLAR_BRACE[0] == '$';
    }
    NoPass(t, S.ORDER, v);
  }

  lemma {:induction false} NoPass(t: string, hs: seq<S.Hole>, v: S.Values)
    requires forall h: S.Hole :: !Contains(t, S.Mark(h))
    ensures S.Passes(t, hs, v) == Ok(t)
    decreases hs
  {
    if hs != [] {
      NoPass(t, hs[1..], v);
    }
  }

  // ---------- what the credential headers hold ----------

  /** Without a header map the one credential header holds exactly the API key or the access token, trimmed: behind
      `Bearer `, or bare in `X-Api-Key` for an API key whose preset asks for that. No other preset is known. */
  lemma PresetSends(src: Header, m: Material, route: Route, fallback: Route)
    requires route.spec == map[] && (Blank(route.preset) ==> fallback.spec == map[])
    ensures ActiveSpec(route, fallback) == map[]
    ensures var r := Outbound([], src, m, route, fallback);
            var p := Lower(Trim(if Blank(route.preset) then fallback.preset else route.preset));
            && (r.Ok? <==> p == "" || p == "bearer" || (p == "x-api-key" && m.kind == ApiKeyKind))
            && (r.Ok? && p != "x-api-key" ==>
                  && ValuesOf(r.value, "Authorization") ==
                     ["Bearer " + Trim(if m.kind == ApiKeyKind then m.apiKey else m.accessToken)]
                  && "X-Api-Key" !in r.value)
            && (r.Ok? && p == "x-api-key" ==>
                  ValuesOf(r.value, "X-Api-Key") == [Trim(m.apiKey)] && "Authorization" !in r.value)
            && (r.Err? ==> r.error == if p == "x-api-key" then PresetNotForOAuth else UnknownPreset(p))
  {
    hide Trim, Lower, Copied;
    TrimIdempotent(route.preset);
    assert "x-api-key"[0] != "bearer"[0];
    assert |AUTHORIZATION| == 13 && |X_API_KEY| == 9;
  }

  /** Nothing else in a credential reaches the upstream: two materials with the same secret, the API key or else the
      access token, account and project, give the same request or error, whatever their refresh tokens, emails,
      expiries, profiles and other metadata. */
  lemma OnlySecretsSent(order: seq<string>, src: Header, a: Material, b: Material, route: Route, fallback: Route)
    requires forall n | n in order :: n in ActiveSpec(route, fallback)
    requires a.kind == b.kind
    requires a.kind == ApiKeyKind ==> Trim(a.apiKey) == Trim(b.apiKey)
    requires a.kind == OAuthKind ==>
               && Trim(a.accessToken) == Trim(b.accessToken)
               && Trim(At(a.extras, "account_id")) == Trim(At(b.extras, "account_id"))
               && Trim(At(a.extras, "project_id")) == Trim(At(b.extras, "project_id"))
    ensures Outbound(order, src, a, route, fallback) == Outbound(order, src, b, route, fallback)
  {
    hide Trim, Lower, Copied, ActiveSpec, ActivePreset, ApplyInOrder;
    TrimEmpty();
  }

  /** The refresh token above all. */
  lemma RefreshTokenStays(
    order: seq<string>, src: Header, m: Material, refresh: string, email: string, expiresAt: int, profile: string,
    route: Route, fallback: Route)
    requires forall n | n in order :: n in ActiveSpec(route, fallback)
    ensures Outbound(order, src, m, route, fallback) ==
            Outbound(order, src, m.(refreshToken := refresh, email := email, expiresAt := expiresAt, profile := profile),
                     route, fallback)
  {
    hide Trim, Lower, Copied, ActiveSpec, ActivePreset, ApplyInOrder, Outbound;
    OnlySecretsSent(order, src, m, m.(refreshToken := refresh, email := email, expiresAt := expiresAt, profile := profile),
                    route, fallback);
  }

  lemma ValuesAre(m: Material)
    ensures MaterialValues(m) ==
            if m.kind == ApiKeyKind then S.Values(Trim(m.apiKey), "", "", "")
            else S.Values("", Trim(m.accessToken), Trim(At(m.extras, "account_id")), Trim(At(m.extras, "project_id")))
  {
    hide Trim;
    TrimEmpty();
  }

  /** The entry is the only one of the map that sets its header. */
  ghost predicate Alone(spec: Spec, n: string) {
    n in spec && forall other | other in spec && other != n :: TargetName(other) != TargetName(n)
  }

  /** An entry that is alone in setting its header: it is applied only if its template's placeholders all have values
      and its result is not empty, and the header then holds the simultaneous substitution of the trimmed API key, or
      of the trimmed access token, account and project, exactly when no `${` comes up in that. */
  lemma EntryIsSubstituted(order: seq<string>, src: Header, m: Material, route: Route, fallback: Route, n: string)
    requires Listing(order, ActiveSpec(route, fallback).Keys) && Alone(ActiveSpec(route, fallback), n)
    ensures forall k | k in order :: k in ActiveSpec(route, fallback)
    ensures var r, t := Outbound(order, src, m, route, fallback), ActiveSpec(route, fallback)[n];
            var v := if m.kind == ApiKeyKind then S.Values(Trim(m.apiKey), "", "", "")
                     else S.Values("", Trim(m.accessToken), Trim(At(m.extras, "account_id")), Trim(At(m.extras, "project_id")));
            r.Ok? ==>
              && S.Covered(S.Tokens(t), v) && TargetName(n) in r.value && r.value[TargetName(n)] != [""]
              && (r.value[TargetName(n)] == [S.Simultaneous(t, v)] <==> !Contains(S.Simultaneous(t, v), "${"))
  {
    hide Trim, Lower, Copied, ActiveSpec, ActivePreset, Preset, TargetName, Canonical, S.Sequential;
    hide S.Simultaneous, S.Covered, Contains, MaterialValues;
    var spec, v := ActiveSpec(route, fallback), MaterialValues(m);
    var h := Copied(map[], src) - AUTH_NAMES;
    ValuesAre(m);
    assert forall k | k in order :: k in Elements(order);
    if Outbound(order, src, m, route, fallback).Ok? {
      assert n in Elements(order);
      EntryStays(order, h, spec, v, n);
      S.SequentialIsSimultaneous(spec[n], v);
      CoveredIfOk(spec[n], v);
    }
  }

  lemma CoveredIfOk(t: string, v: S.Values)
    requires S.Sequential(t, v).Ok?
    ensures S.Covered(S.Tokens(t), v)
  {
    hide S.Sequential;
    if !S.Covered(S.Tokens(t), v) {
      var x :| x in S.Tokens(t) && x.Ph? && v.At(x.h) == "";
      S.MissingIsError(t, x.h, v);
    }
  }

  lemma {:induction false} EntryStays(order: seq<string>, h: Header, spec: Spec, v: S.Values, n: string)
    requires Distinct(order) && n in order && Alone(spec, n)
    requires (forall k | k in order :: k in spec) && ApplyInOrder(order, h, spec, v).Ok?
    ensures EntryValue(n, spec[n], v).Ok?
    ensures TargetName(n) in ApplyInOrder(order, h, spec, v).value
    ensures ApplyInOrder(order, h, spec, v).value[TargetName(n)] == [EntryValue(n, spec[n], v).value]
    decreases order
  {
    hide EntryValue, TargetName;
    var h1 := h[TargetName(order[0]) := [EntryValue(order[0], spec[order[0]], v).value]];
    if order[0] == n {
      Untouched(order[1..], h1, spec, v, TargetName(n));
    } else {
      EntryStays(order[1..], h1, spec, v, n);
    }
  }

  /** The template that is one placeholder and nothing else: the header holds that secret itself, trimmed, and there is no
      request at all without one. Only a secret that has `${` in it does not arrive as it is. */
  lemma PlaceholderSends(
    order: seq<string>, src: Header, m: Material, route: Route, fallback: Route, n: string, secret: string)
    requires Listing(order, ActiveSpec(route, fallback).Keys) && Alone(ActiveSpec(route, fallback), n)
    requires var t := ActiveSpec(route, fallback)[n];
             || (t == "${key}" && secret == if m.kind == ApiKeyKind then m.apiKey else "")
             || (t == "${access}" && secret == if m.kind == OAuthKind then m.accessToken else "")
             || (t == "${accountId}" && secret == if m.kind == OAuthKind then At(m.extras, "account_id") else "")
             || (t == "${projectId}" && secret == if m.kind == OAuthKind then At(m.extras, "project_id") else "")
    ensures forall k | k in order :: k in ActiveSpec(route, fallback)
    ensures var r := Outbound(order, src, m, route, fallback);
            r.Ok? ==> !Blank(secret) && (ValuesOf(r.value, TargetName(n)) == [Trim(secret)] <==> !Contains(Trim(secret), "${"))
  {
    hide Trim, Lower, Copied, ActiveSpec, ActivePreset, Preset, TargetName, Canonical, S.Sequential, Outbound;
    hide S.Simultaneous, S.Covered, S.Tokens, Contains, MaterialValues;
    var t := ActiveSpec(route, fallback)[n];
    var v := MaterialValues(m);
    ValuesAre(m);
    TrimEmpty();
    EntryIsSubstituted(order, src, m, route, fallback, n);
    var h := MarkHole(t);
    assert v.At(h) == Trim(secret);
    if Outbound(order, src, m, route, fallback).Ok? {
      if v.At(h) == "" {
        WholeToken(h);
        MentionedIsCovered(t, h, v);
      } else {
        S.WholeMark(h, v);
      }
    }
  }

  function MarkHole(t: string): (h: S.Hole)
    requires t == "${key}" || t == "${access}" || t == "${accountId}" || t == "${projectId}"
    ensures S.Mark(h) == t
  {
    if t == "${key}" then S.KeyHole else if t == "${access}" then S.AccessHole
    else if t == "${accountId}" then S.AccountHole else S.ProjectHole
  }

  lemma WholeToken(h: S.Hole)
    ensures S.Mentions(S.Mark(h), h)
  {
    var m := S.Mark(h);
    var w: string := "";
    assert m + w == m;
    forall g: S.Hole | g != h ensures !(S.Mark(g) <= m) {
      S.MarksApart(h, g, w);
      assert !OccursAt(m + w, 0, S.Mark(g));
    }
    assert S.HoleAt(m) == Some(h);
  }

  lemma MentionedIsCovered(t: string, h: S.Hole, v: S.Values)
    requires S.Mentions(t, h) && S.Covered(S.Tokens(t), v)
    ensures v.At(h) != ""
  {
  }

  /** The route's own header map comes first, then its preset, and the adapter's fallback counts only when the route has
      neither; the settings passed over make no difference. */
  lemma RouteComesFirst(order: seq<string>, src: Header, m: Material, route: Route, fallback: Route)
    ensures route.spec != map[] && (forall n | n in order :: n in route.spec) ==>
              && ActiveSpec(route, fallback) == ActiveSpec(Route(route.spec, ""), Route(map[], "")) == route.spec
              && Outbound(order, src, m, route, fallback) == Outbound(order, src, m, Route(route.spec, ""), Route(map[], ""))
    ensures route.spec == map[] && !Blank(route.preset) ==>
              Outbound([], src, m, route, fallback) == Outbound([], src, m, route, Route(map[], ""))
    ensures route.spec == map[] && Blank(route.preset) && (forall n | n in order :: n in fallback.spec) ==>
              && ActiveSpec(route, fallback) == fallback.spec
              && Outbound(order, src, m, route, fallback) ==
                 if fallback.spec != map[] then Outbound(order, src, m, Route(fallback.spec, ""), Route(map[], ""))
                 else Outbound([], src, m, Route(map[], ""), fallback)
  {
    hide Trim, Lower, Copied, Preset, MaterialValues;
    TrimEmpty();
  }

  // ---------- which names are one header ----------

  lemma {:induction false} LowerAgain(s: string)
    ensures Lower(Lower(s)) == Lower(s)
  {
    var a, b := Lower(s), Lower(Lower(s));
    assert forall i | 0 <= i < |s| :: b[i] == a[i];
    assert a == b;
  }

  lemma TitleKeepsTokens(s: string)
    ensures (forall c | c in Title(s) :: IsTokenChar(c)) <==> (forall c | c in s :: IsTokenChar(c))
  {
    var t := Title(s);
    forall i | 0 <= i < |s| ensures IsTokenChar(t[i]) <==> IsTokenChar(s[i]) {
    }
    assert forall i | 0 <= i < |s| :: t[i] in t && s[i] in s;
  }

  lemma TitleApart(a: string, b: string)
    requires Lower(a) == a && Lower(b) == b && Title(a) == Title(b)
    ensures a == b
  {
    var t := Title(a);
    assert |a| == |b|;
    forall i | 0 <= i < |a| ensures a[i] == b[i] {
      assert Lower(a)[i] == a[i] && Lower(b)[i] == b[i];
      assert t[i] == Title(b)[i];
      assert LowerChar(t[i]) == a[i] && LowerChar(t[i]) == b[i];
    }
  }

  lemma LowerTarget(name: string)
    ensures TargetName(name) == Canonical(Lower(Trim(name)))
  {
    hide Trim;
    AuthorizationName();
    ApiKeyName();
    var lower := Lower(Trim(name));
    if lower == "authorization" {
      var a := Title("authorization");
      assert a[0] == 'A' && a[1] == 'u' && a[2] == 't' && a[3] == 'h' && a[4] == 'o' && a[5] == 'r';
      assert a[6] == 'i' && a[7] == 'z' && a[8] == 'a' && a[9] == 't' && a[10] == 'i' && a[11] == 'o' && a[12] == 'n';
      assert a == AUTHORIZATION;
    }
  }

  /** Two entries set one header exactly when their names are the same but for case and the space around them. */
  lemma SameTargetIff(a: string, b: string)
    ensures TargetName(a) == TargetName(b) <==> Lower(Trim(a)) == Lower(Trim(b))
  {
    hide Trim, TargetName, IsTokenChar, Title, Lower;
    LowerTarget(a);
    LowerTarget(b);
    var x, y := Lower(Trim(a)), Lower(Trim(b));
    LowerAgain(Trim(a));
    LowerAgain(Trim(b));
    TitleKeepsTokens(x);
    TitleKeepsTokens(y);
    if Title(x) == Title(y) {
      TitleApart(x, y);
    }
  }

  /** The two credential headers are recognised in any spelling. */
  lemma CredentialTargets(name: string)
    ensures TargetName(name) == "Authorization" <==> Lower(Trim(name)) == "authorization"
    ensures TargetName(name) == "X-Api-Key" <==> Lower(Trim(name)) == "x-api-key"
  {
    hide Trim, TargetName, Lower;
    SameTargetIff(name, "authorization");
    SameTargetIff(name, "x-api-key");
    CredentialSpellings();
  }

  lemma CredentialSpellings()
    ensures TargetName("authorization") == "Authorization" && Lower(Trim("authorization")) == "authorization"
    ensures TargetName("x-api-key") == "X-Api-Key" && Lower(Trim("x-api-key")) == "x-api-key"
  {
    hide Trim, IsSpace, Lower, Canonical;
    assert !IsSpace('a') && !IsSpace('n') && !IsSpace('x') && !IsSpace('y') by { NoSpaces(); }
    TrimNothing("authorization");
    TrimNothing("x-api-key");
    AllLower("authorization");
    AllLower("x-api-key");
    AuthorizationName();
    ApiKeyName();
    assert |"authorization"| == 13 && |"x-api-key"| == 9;
  }

  lemma NoSpaces()
    ensures !IsSpace('a') && !IsSpace('n') && !IsSpace('x') && !IsSpace('y')
  {
  }

  lemma {:induction false} AllLower(s: string)
    requires forall c | c in s :: !('A' <= c <= 'Z')
    ensures Lower(s) == s
  {
    forall i | 0 <= i < |s| ensures Lower(s)[i] == s[i] {
      assert s[i] in s;
    }
  }
}
