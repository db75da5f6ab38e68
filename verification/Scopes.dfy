/** Key scopes as sets of (model, wire) pairs, and the policies that cap what a minted key may hold
    (ingress/keyring/scopes.go, credential/admin/policy.go, `createKey` in credential/admin/server.go). */
module Scopes {
  import opened Text
  import K = Keyring

  type Scopes = K.Scopes

  const WIRE := "wire:"
  const MODEL := "model:"

  // ---------- authorization ----------

  /** One scope lets this model through on this wire. */
  predicate Grants(scope: string, model: string, wire: string) {
    var s := Trim(scope);
    s == "" || s == "*" || s == MODEL + model || s == WIRE + wire
  }

  /** `Authorize`; no scopes at all allow everything. */
  predicate Authorize(scopes: Scopes, model: string, wire: string) {
    scopes == [] || exists s | s in scopes :: Grants(s, model, wire)
  }

  predicate Shows(scope: string, model: string, wires: seq<string>) {
    var s := Trim(scope);
    s == "" || s == "*" || s == MODEL + model || (WIRE <= s && s[|WIRE|..] in wires)
  }

  /** `FilterModels`: whether the models listing shows a model that is served on these wires. */
  predicate FilterModels(scopes: Scopes, model: string, wires: seq<string>) {
    scopes == [] || exists s | s in scopes :: Shows(s, model, wires)
  }

  lemma ShowsIsGrants(scope: string, model: string, wires: seq<string>)
    requires wires != []
    ensures Shows(scope, model, wires) <==> exists w | w in wires :: Grants(scope, model, w)
  {
    var s := Trim(scope);
    hide Trim;
    if Shows(scope, model, wires) {
      var w := if WIRE <= s && s[|WIRE|..] in wires then s[|WIRE|..] else wires[0];
      assert WIRE <= s ==> s == WIRE + s[|WIRE|..];
      assert Grants(scope, model, w);
    }
    if w :| w in wires && Grants(scope, model, w) {
      assert (WIRE + w)[|WIRE|..] == w;
    }
  }

  /** The listing shows a model served on at least one wire exactly when one of its wires is authorized. */
  lemma ShownIffSomeWireAuthorized(scopes: Scopes, model: string, wires: seq<string>)
    requires wires != []
    ensures FilterModels(scopes, model, wires) <==> exists w | w in wires :: Authorize(scopes, model, w)
  {
    hide Grants, Shows;
    if scopes == [] {
      assert Authorize(scopes, model, wires[0]);
    } else {
      if s :| s in scopes && Shows(s, model, wires) {
        ShowsIsGrants(s, model, wires);
        var w :| w in wires && Grants(s, model, w);
        assert Authorize(scopes, model, w);
      }
      if w :| w in wires && Authorize(scopes, model, w) {
        var s :| s in scopes && Grants(s, model, w);
        ShowsIsGrants(s, model, wires);
      }
    }
  }

  /** A model with no wires at all is shown although nothing can call it, when a scope names it or everything. */
  lemma ShownWithoutWires(scopes: Scopes, model: string)
    ensures FilterModels(scopes, model, []) <==>
            scopes == [] || exists s | s in scopes :: Trim(s) == "" || Trim(s) == "*" || Trim(s) == MODEL + model
  {
    hide Trim;
    if s :| s in scopes && Shows(s, model, []) {
      assert Trim(s) == "" || Trim(s) == "*" || Trim(s) == MODEL + model;
    }
    if s :| s in scopes && (Trim(s) == "" || Trim(s) == "*" || Trim(s) == MODEL + model) {
      assert Shows(s, model, []);
    }
  }

  // ---------- mint policies ----------

  const HOUR: int := 3600 * 1_000_000_000

  datatype MintPolicy = MintPolicy(maxTtl: int, scopes: Scopes, requireAllowlist: bool)

  const DEFAULT_PROVISION := MintPolicy(
    24 * HOUR, ["wire:openai-chat-completions", "wire:anthropic-messages", "wire:openai-responses"], true)

  const DEFAULT_KEYS := MintPolicy(720 * HOUR, [], false)

  datatype MintError = InvalidTtl | TtlNotPositive | ScopesNotConfigured | ScopesRequired | ScopeNotAllowed | Forbidden

  /** `ParseDuration`; `parsed` is what the time library makes of `raw`. */
  function ParseTtl(raw: string, parsed: Option<int>, fallback: int, max: int): Result<int, MintError> {
    if Trim(raw) == "" then Ok(fallback)
    else
      match parsed
      case None => Err(InvalidTtl)
      case Some(d) => if d <= 0 then Err(TtlNotPositive) else if max > 0 && d > max then Ok(max) else Ok(d)
  }

  predicate ScopeAllowed(scope: string, allowlist: Scopes) {
    exists a | a in allowlist :: Trim(a) == "*" || Trim(a) == Trim(scope)
  }

  function ResolveScopes(p: MintPolicy, requested: Scopes): Result<Scopes, MintError> {
    if p.requireAllowlist then
      if p.scopes == [] then Err(ScopesNotConfigured) else Ok(p.scopes)
    else if p.scopes == [] then Ok(requested)
    else if requested == [] then Err(ScopesRequired)
    else if exists s | s in requested :: !ScopeAllowed(s, p.scopes) then Err(ScopeNotAllowed)
    else Ok(requested)
  }

  datatype Role = Admin | Provision

  datatype MintRequest = MintRequest(isStatic: bool, ttl: string, parsedTtl: Option<int>, scopes: Scopes)

  datatype Mint = Mint(kind: K.KeyKind, ttl: int, scopes: Scopes)

  /** The policy `createKey` applies: a policy without a lifetime cap is replaced as a whole. */
  function PolicyInForce(role: Role, keys: MintPolicy, provision: MintPolicy): MintPolicy {
    match role
    case Admin => if keys.maxTtl == 0 then DEFAULT_KEYS else keys
    case Provision => if provision.maxTtl == 0 then DEFAULT_PROVISION else provision
  }

  /** What `createKey` mints, or the first thing it objects to. */
  function Minted(role: Role, keys: MintPolicy, provision: MintPolicy, req: MintRequest): Result<Mint, MintError> {
    var policy := PolicyInForce(role, keys, provision);
    var ttl := if req.isStatic then Ok(0) else ParseTtl(req.ttl, req.parsedTtl, 24 * HOUR, policy.maxTtl);
    var scopes := ResolveScopes(policy, if role == Provision then [] else req.scopes);
    if role == Provision && req.isStatic then Err(Forbidden)
    else if ttl.Err? then Err(ttl.error)
    else if scopes.Err? then Err(scopes.error)
    else Ok(Mint(if req.isStatic then K.Static else K.Issued, ttl.value, scopes.value))
  }

  /** `createKey` up to the store: what it asks the key store to create. */
  method CreateKey(role: Role, keys: MintPolicy, provision: MintPolicy, req: MintRequest)
    returns (r: Result<Mint, MintError>)
    ensures r == Minted(role, keys, provision, req)
  {
    hide Trim, ScopeAllowed;
    var policy := keys;
    if policy.maxTtl == 0 {
      policy := DEFAULT_KEYS;
    }
    if role == Provision {
      policy := provision;
      if policy.maxTtl == 0 {
        policy := DEFAULT_PROVISION;
      }
    }
    if role == Provision && req.isStatic {
      return Err(Forbidden);
    }
    var kind, ttl := K.Issued, 24 * HOUR;
    if req.isStatic {
      kind, ttl := K.Static, 0;
    } else {
      var parsed := ParseTtl(req.ttl, req.parsedTtl, 24 * HOUR, policy.maxTtl);
      if parsed.Err? {
        return Err(parsed.error);
      }
      ttl := parsed.value;
    }
    var requested := req.scopes;
    if role == Provision {
      requested := [];
    }
    var scopes := ResolveScopes(policy, requested);
    if scopes.Err? {
      return Err(scopes.error);
    }
    r := Ok(Mint(kind, ttl, scopes.value));
  }

  // ---------- what a policy guarantees ----------

  lemma AllowedGrantsLess(scope: string, allowlist: Scopes, model: string, wire: string)
    requires ScopeAllowed(scope, allowlist) && Grants(scope, model, wire)
    ensures exists a | a in allowlist :: Grants(a, model, wire)
  {
    hide Trim;
    var a :| a in allowlist && (Trim(a) == "*" || Trim(a) == Trim(scope));
    assert Grants(a, model, wire);
  }

  /** Under a policy that lists scopes, what is stored for a key and read back is never the empty list that allows
      everything, and admits only pairs the policy's own list admits. */
  lemma MintedWithinPolicy(p: MintPolicy, requested: Scopes, model: string, wire: string)
    requires p.scopes != [] && ResolveScopes(p, requested).Ok?
    ensures var stored := K.DecodeScopes(K.EncodeScopes(ResolveScopes(p, requested).value));
            stored != [] && (Authorize(stored, model, wire) ==> Authorize(p.scopes, model, wire))
  {
    hide ScopeAllowed, Grants;
    var scopes := ResolveScopes(p, requested).value;
    if !p.requireAllowlist && Authorize(scopes, model, wire) {
      var s :| s in scopes && Grants(s, model, wire);
      assert ScopeAllowed(s, p.scopes);
      AllowedGrantsLess(s, p.scopes, model, wire);
    }
  }

  /** The same, end to end: a key whose insert carried scopes minted under the policy can, whenever and however it
      verifies, call only what the policy's list admits. */
  lemma KeyStaysWithinPolicy(
    log: seq<K.Event>, i: nat, secret: string, now: int, p: K.Principal,
    policy: MintPolicy, requested: Scopes, model: string, wire: string)
    requires K.WellFormed(log) && K.Verified(K.After(log).rows, secret, now) == Some(p) && K.Inserts(log, i, p.keyId)
    requires policy.scopes != [] && ResolveScopes(policy, requested) == Ok(log[i].scopes)
    requires Authorize(p.scopes, model, wire)
    ensures Authorize(policy.scopes, model, wire)
  {
    hide K.Verified, K.After, K.WellFormed, ResolveScopes;
    K.VerifiesIffVouched(log, secret, now, p);
    var j: nat :| K.Inserts(log, j, p.keyId) && p.name == log[j].name && p.scopes == log[j].scopes;
    K.InsertedOnce(log, i, j, p.keyId);
    MintedWithinPolicy(policy, requested, model, wire);
  }

  /** A key's lifetime is positive, and respects the policy's cap exactly when one was asked for or the default
      of a day already does. */
  lemma TtlCap(raw: string, parsed: Option<int>, max: int)
    requires max > 0 && ParseTtl(raw, parsed, 24 * HOUR, max).Ok?
    ensures var ttl := ParseTtl(raw, parsed, 24 * HOUR, max).value;
            ttl > 0 && (ttl <= max <==> !Blank(raw) || 24 * HOUR <= max)
  {
    hide Trim;
  }

  /** A key asked for without a lifetime, under a cap of one hour, lives for a day. */
  lemma BlankTtlUncapped()
    ensures ParseTtl("", None, 24 * HOUR, HOUR) == Ok(24 * HOUR) && 24 * HOUR > HOUR
  {
    TrimEmpty();
  }

  // ---------- policies from the configuration file ----------

  /** A policy section of the file; `parsedTtl` is what the time library makes of `maxTtl`. */
  datatype Section = Section(maxTtl: string, parsedTtl: Option<int>, scopes: Scopes)

  /** `KeysPolicyFromConfig` and `ProvisionPolicyFromConfig`: the section's valid parts over a default. */
  function FromConfig(base: MintPolicy, section: Option<Section>): MintPolicy {
    match section
    case None => base
    case Some(cfg) =>
      base.(maxTtl := if cfg.maxTtl != "" && cfg.parsedTtl.Some? && cfg.parsedTtl.value > 0 then cfg.parsedTtl.value
                      else base.maxTtl,
            scopes := if cfg.scopes != [] then cfg.scopes else base.scopes)
  }

  /** The scope list an operator has configured for a role, or its default. */
  function ConfiguredList(role: Role, keys: Option<Section>, provision: Option<Section>): Scopes {
    match role
    case Admin => if keys.Some? then keys.value.scopes else []
    case Provision =>
      if provision.Some? && provision.value.scopes != [] then provision.value.scopes else DEFAULT_PROVISION.scopes
  }

  /** With policies read from the file, whatever is minted stays inside them: a provisioned key is issued, a list that
      was configured admits whatever the stored key admits, and a lifetime that was asked for is within the cap. */
  lemma ConfiguredPolicyHolds(
    role: Role, keys: Option<Section>, provision: Option<Section>, req: MintRequest, model: string, wire: string)
    requires Minted(role, FromConfig(DEFAULT_KEYS, keys), FromConfig(DEFAULT_PROVISION, provision), req).Ok?
    ensures var kp, pp := FromConfig(DEFAULT_KEYS, keys), FromConfig(DEFAULT_PROVISION, provision);
            var mint, list := Minted(role, kp, pp, req).value, ConfiguredList(role, keys, provision);
            var stored := K.DecodeScopes(K.EncodeScopes(mint.scopes));
            && PolicyInForce(role, kp, pp) == (if role == Admin then kp else pp)
            && (role == Provision ==> mint.kind == K.Issued && list != [])
            && (list != [] ==> stored != [] && (Authorize(stored, model, wire) ==> Authorize(list, model, wire)))
            && (mint.kind == K.Issued ==> mint.ttl > 0)
            && (mint.kind == K.Issued && !Blank(req.ttl) ==> mint.ttl <= (if role == Admin then kp else pp).maxTtl)
  {
    hide Trim, ScopeAllowed, Authorize;
    var kp, pp := FromConfig(DEFAULT_KEYS, keys), FromConfig(DEFAULT_PROVISION, provision);
    var policy := PolicyInForce(role, kp, pp);
    var list := ConfiguredList(role, keys, provision);
    assert policy.scopes == list;
    if list != [] {
      MintedWithinPolicy(policy, if role == Provision then [] else req.scopes, model, wire);
    }
  }

  /** The policy `createKey` goes by, with the defaults written out: 720 hours and any scopes for an administrator, 24
      hours and the three text wires for a provisioner. */
  function InForce(role: Role, keys: MintPolicy, provision: MintPolicy): MintPolicy {
    if role == Admin then
      if keys.maxTtl != 0 then keys else MintPolicy(2_592_000_000_000_000, [], false)
    else if provision.maxTtl != 0 then provision
    else MintPolicy(
           86_400_000_000_000, ["wire:openai-chat-completions", "wire:anthropic-messages", "wire:openai-responses"], true)
  }

  /** The scopes a minted key is to stand for: the policy's own where it insists on them, otherwise the ones asked for,
      and a provisioner asks for none. */
  function Meant(role: Role, p: MintPolicy, req: MintRequest): Scopes {
    if p.requireAllowlist then p.scopes else if role == Provision then [] else req.scopes
  }

  /** What a minted key may call, once its scopes are stored and read back: exactly what the scopes it stands for allow.
      No list that names scopes is ever stored as the empty one, which would allow everything. */
  lemma MintedKeyCalls(role: Role, keys: MintPolicy, provision: MintPolicy, req: MintRequest, model: string, wire: string)
    requires Minted(role, keys, provision, req).Ok?
    ensures var meant := Meant(role, InForce(role, keys, provision), req);
            var stored := K.DecodeScopes(K.EncodeScopes(Minted(role, keys, provision, req).value.scopes));
            && (Authorize(stored, model, wire) <==> Authorize(meant, model, wire))
            && (stored == [] <==> meant == [])
    ensures role == Admin && req.scopes != [] ==>
              K.EncodeScopes(Minted(role, keys, provision, req).value.scopes).Some?
  {
    hide Authorize, ScopeAllowed, Trim;
  }

  /** The same of a key in use: whenever it verifies, whatever happened since, it may call exactly that. */
  lemma KeyCallsWhatWasMeant(
    log: seq<K.Event>, i: nat, secret: string, now: int, p: K.Principal,
    role: Role, keys: MintPolicy, provision: MintPolicy, req: MintRequest, model: string, wire: string)
    requires K.WellFormed(log) && K.Verified(K.After(log).rows, secret, now) == Some(p) && K.Inserts(log, i, p.keyId)
    requires Minted(role, keys, provision, req).Ok? && log[i].scopes == Minted(role, keys, provision, req).value.scopes
    ensures Authorize(p.scopes, model, wire) <==> Authorize(Meant(role, InForce(role, keys, provision), req), model, wire)
  {
    hide K.Verified, K.After, K.WellFormed, Minted, InForce, Meant, Authorize, ResolveScopes;
    K.VerifiesIffVouched(log, secret, now, p);
    var j: nat :| K.Inserts(log, j, p.keyId) && p.name == log[j].name && p.scopes == log[j].scopes;
    K.InsertedOnce(log, i, j, p.keyId);
    MintedKeyCalls(role, keys, provision, req, model, wire);
  }

  /** Exactly which requests are minted: only an administrator's key may be static, a lifetime that is given has to be a
      positive duration, a policy that insists on its own scopes has to have some, and against any other list each scope
      asked for, of which there has to be one, is in the list or the list has a star. */
  lemma MintedIff(role: Role, keys: MintPolicy, provision: MintPolicy, req: MintRequest)
    ensures var p := InForce(role, keys, provision);
            Minted(role, keys, provision, req).Ok? <==>
            && (req.isStatic ==> role == Admin)
            && (!req.isStatic && !Blank(req.ttl) ==> req.parsedTtl.Some? && req.parsedTtl.value > 0)
            && (p.requireAllowlist ==> p.scopes != [])
            && (!p.requireAllowlist && p.scopes != [] ==>
                  && Meant(role, p, req) != []
                  && forall s | s in Meant(role, p, req) ::
                       exists a | a in p.scopes :: Trim(a) == "*" || Trim(a) == Trim(s))
  {
    hide Trim, ScopeAllowed, InForce;
    var p := InForce(role, keys, provision);
    var asked := if role == Provision then [] else req.scopes;
    assert PolicyInForce(role, keys, provision) == p by { ForceIs(role, keys, provision); }
    ResolvedIff(p, asked);
    assert !p.requireAllowlist ==> Meant(role, p, req) == asked;
  }

  lemma ForceIs(role: Role, keys: MintPolicy, provision: MintPolicy)
    ensures PolicyInForce(role, keys, provision) == InForce(role, keys, provision)
  {
  }

  lemma ResolvedIff(p: MintPolicy, asked: Scopes)
    ensures ResolveScopes(p, asked).Ok? <==>
            && (p.requireAllowlist ==> p.scopes != [])
            && (!p.requireAllowlist && p.scopes != [] ==>
                  asked != [] && forall s | s in asked :: exists a | a in p.scopes :: Trim(a) == "*" || Trim(a) == Trim(s))
  {
    hide Trim;
    assert forall s :: ScopeAllowed(s, p.scopes) <==> exists a | a in p.scopes :: Trim(a) == "*" || Trim(a) == Trim(s);
  }

  /** A minted key's kind and lifetime: static keys have none; an issued key lives as long as was asked for, but no longer
      than the policy allows, and one asked for without a lifetime lives for 24 hours whatever the policy says. */
  lemma MintedLifetime(role: Role, keys: MintPolicy, provision: MintPolicy, req: MintRequest)
    requires Minted(role, keys, provision, req).Ok?
    ensures var mint, cap := Minted(role, keys, provision, req).value, InForce(role, keys, provision).maxTtl;
            && (req.isStatic ==> mint.kind == K.Static && mint.ttl == 0)
            && (!req.isStatic ==> mint.kind == K.Issued)
            && (!req.isStatic && Blank(req.ttl) ==> mint.ttl == 86_400_000_000_000)
            && (!req.isStatic && !Blank(req.ttl) ==>
                  && req.parsedTtl.Some?
                  && mint.ttl <= req.parsedTtl.value
                  && (cap > 0 ==> mint.ttl <= cap)
                  && (mint.ttl == req.parsedTtl.value || (cap > 0 && mint.ttl == cap)))
  {
    hide Trim, ScopeAllowed;
  }

  /** A model scope reaches that model on every wire, a wire scope every model on that wire, and a star, a blank or no
      scope at all everything; a scope of any other form reaches nothing. */
  lemma ScopeReaches(scope: string, name: string, model: string, wire: string)
    requires name != "" && Trim(name) == name
    ensures Authorize(["model:" + name], model, wire) <==> model == name
    ensures Authorize(["wire:" + name], model, wire) <==> wire == name
    ensures Authorize([], model, wire) && Authorize(["*"], model, wire) && Authorize([""], model, wire)
    ensures Authorize([scope], model, wire) ==>
              Blank(scope) || Trim(scope) == "*" || "model:" <= Trim(scope) || "wire:" <= Trim(scope)
  {
    hide Authorize, Grants, Trim;
    ModelScope(name, model, wire);
    WireScope(name, model, wire);
    OpenScopes(model, wire);
    OtherScope(scope, model, wire);
  }

  lemma Prefixed(kind: string, name: string)
    requires kind != "" && !IsSpace(kind[0]) && name != "" && Trim(name) == name
    ensures Trim(kind + name) == kind + name
  {
    var s := kind + name;
    assert s[0] == kind[0] && s[|s| - 1] == name[|name| - 1];
    TrimNothing(s);
  }

  lemma ModelScope(name: string, model: string, wire: string)
    requires name != "" && Trim(name) == name
    ensures Authorize(["model:" + name], model, wire) <==> model == name
  {
    hide Trim, IsSpace;
    var m := "model:" + name;
    assert !IsSpace('m') by { Letters(); }
    Prefixed("model:", name);
    assert m[0] == 'm' && (WIRE + wire)[0] == 'w' && |m| > 1;
    assert (MODEL + model)[6..] == model && m[6..] == name;
    OneScope(m, model, wire);
  }

  lemma WireScope(name: string, model: string, wire: string)
    requires name != "" && Trim(name) == name
    ensures Authorize(["wire:" + name], model, wire) <==> wire == name
  {
    hide Trim, IsSpace;
    var w := "wire:" + name;
    assert !IsSpace('w') by { Letters(); }
    Prefixed("wire:", name);
    assert w[0] == 'w' && (MODEL + model)[0] == 'm' && |w| > 1;
    assert (WIRE + wire)[5..] == wire && w[5..] == name;
    OneScope(w, model, wire);
  }

  lemma Letters()
    ensures !IsSpace('m') && !IsSpace('w') && !IsSpace('*')
  {
  }

  lemma OpenScopes(model: string, wire: string)
    ensures Authorize([], model, wire) && Authorize(["*"], model, wire) && Authorize([""], model, wire)
  {
    hide Trim, IsSpace;
    assert !IsSpace('*') by { Letters(); }
    TrimNothing("*");
    TrimEmpty();
    OneScope("*", model, wire);
    OneScope("", model, wire);
  }

  lemma OtherScope(scope: string, model: string, wire: string)
    ensures Authorize([scope], model, wire) ==>
              Blank(scope) || Trim(scope) == "*" || "model:" <= Trim(scope) || "wire:" <= Trim(scope)
  {
    hide Trim;
    OneScope(scope, model, wire);
  }

  lemma OneScope(scope: string, model: string, wire: string)
    ensures Authorize([scope], model, wire) <==> Grants(scope, model, wire)
  {
    hide Grants;
    assert [scope][0] == scope;
  }
}
