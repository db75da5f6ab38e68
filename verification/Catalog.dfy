/** Resolving a model and a wire to an ordered list of upstream targets (catalog/catalog.go), and listing the
    models a key may see (catalog/models_list.go). Maps are iterated in an arbitrary order throughout. */
module Catalog {
  import opened Text
  import Scopes

  const WIRE_CHAT := "openai-chat-completions"
  const WIRE_MESSAGES := "anthropic-messages"
  const WIRE_EMBED := "openai-embeddings"
  const WIRE_RESPONSES := "openai-responses"
  const WIRE_IMAGES := "openai-images-generations"
  const WIRE_SPEECH := "openai-audio-speech"
  const WIRE_TRANSCRIPTIONS := "openai-audio-transcriptions"
  const WIRE_VIDEOS := "openai-videos"

  const FAILOVER := "failover"
  const ROUND_ROBIN := "round_robin"

  datatype Surface = Surface(protocol: string, adapter: string, baseUrl: string)

  datatype Provider = Provider(
    credentialProfile: string, inject: map<string, string>, injectPreset: string,
    surfaces: map<string, Surface>, protocol: string, baseUrl: string)

  datatype PoolEntry = PoolEntry(providerRef: string, model: string, surface: string)

  datatype Modality = Modality(wire: string, strategy: string, providers: seq<PoolEntry>)

  type Model = map<string, Modality>

  datatype Document = Document(providers: map<string, Provider>, models: map<string, Model>)

  datatype Target = Target(
    model: string, providerRef: string, protocol: string, adapter: string, baseUrl: string,
    credentialProfile: string, upstreamModel: string, inject: map<string, string>, injectPreset: string)

  datatype Plan = Plan(strategy: string, targets: seq<Target>)

  datatype ResolveError =
    | UnknownModel
    | NoModality
    | ModalityNotAvailable
    | Ambiguous(names: seq<string>)
    | EmptyPool
    | StickyRemoved
    | UnknownStrategy
    | UnknownProvider(ref: string)
    | SurfaceNotFound(id: string)
    | NoSurface

  // ---------- normalization ----------

  /** A provider in the flat legacy form gets one surface named `default`. */
  function NormalProvider(p: Provider): Provider {
    if p.surfaces == map[] && p.protocol != ""
    then p.(surfaces := map["default" := Surface(p.protocol, "", p.baseUrl)])
    else p
  }

  function Normalized(doc: Document): Document {
    doc.(providers := map name | name in doc.providers :: NormalProvider(doc.providers[name]))
  }

  // ---------- what resolution means, without any order ----------

  /** The modalities of a model that serve a wire. */
  function Candidates(m: Model, wire: string): set<string> {
    set name | name in m && m[name].wire == wire
  }

  const CHAT_FAMILY: set<string> := {"chat", "search_web", "search_x"}

  /** The modality a hint picks from the candidates. */
  ghost function Picked(names: set<string>, hint: string): Result<string, ResolveError> {
    if Trim(hint) != "" then
      if Trim(hint) in names then Ok(Trim(hint)) else Err(ModalityNotAvailable)
    else if |names| == 1 then
      var name :| name in names; Ok(name)
    else if "chat" in names && names <= CHAT_FAMILY then Ok("chat")
    else Err(Ambiguous(SortedNames(names)))
  }

  /** The same for a listing of the candidates. */
  function PickedFrom(listing: seq<string>, hint: string): Result<string, ResolveError> {
    if Trim(hint) != "" then
      if Trim(hint) in listing then Ok(Trim(hint)) else Err(ModalityNotAvailable)
    else if |listing| == 1 then Ok(listing[0])
    else if "chat" in listing && forall name | name in listing :: name in CHAT_FAMILY then Ok("chat")
    else Err(Ambiguous(listing))
  }

  lemma PickedFromSorted(listing: seq<string>, names: set<string>, hint: string)
    requires listing == SortedNames(names) && Distinct(listing)
    ensures PickedFrom(listing, hint) == Picked(names, hint)
  {
    hide SortedNames, Trim;
    DistinctSize(listing);
    assert Elements(listing) == names;
    assert |listing| == 1 ==> Elements(listing) == {listing[0]};
  }

  function ProtocolMatchesWire(protocol: string, wire: string): bool {
    if wire == WIRE_CHAT then protocol == "openai-chat-completions" || protocol == "openai-compat-chat"
    else if wire == WIRE_MESSAGES then protocol == "anthropic-messages"
    else if wire == WIRE_EMBED then protocol == "openai-embeddings"
    else if wire == WIRE_RESPONSES then protocol == "openai-responses"
    else if wire == WIRE_IMAGES then protocol == "openai-images"
    else if wire == WIRE_SPEECH then protocol == "openai-tts"
    else if wire == WIRE_TRANSCRIPTIONS then protocol == "openai-transcriptions"
    else if wire == WIRE_VIDEOS then protocol == "openai-videos"
    else false
  }

  /** A surface that may be picked without being named: no adapter, and a protocol that matches the wire. */
  predicate Eligible(surfaces: map<string, Surface>, wire: string, id: string) {
    id in surfaces && surfaces[id].adapter == "" && ProtocolMatchesWire(surfaces[id].protocol, wire)
  }

  /** The least eligible surface id. */
  predicate IsAuto(surfaces: map<string, Surface>, wire: string, id: string) {
    Eligible(surfaces, wire, id) && forall other | other in surfaces && Eligible(surfaces, wire, other) :: Leq(id, other)
  }

  predicate IsSurface(surfaces: map<string, Surface>, entry: PoolEntry, wire: string, r: Result<Surface, ResolveError>) {
    if entry.surface != "" then
      r == if entry.surface in surfaces then Ok(surfaces[entry.surface]) else Err(SurfaceNotFound(entry.surface))
    else
      match r
      case Ok(s) => exists id | id in surfaces :: IsAuto(surfaces, wire, id) && s == surfaces[id]
      case Err(e) => e == NoSurface && forall id | id in surfaces :: !Eligible(surfaces, wire, id)
  }

  lemma SurfaceExists(surfaces: map<string, Surface>, entry: PoolEntry, wire: string)
    ensures exists r :: IsSurface(surfaces, entry, wire, r)
  {
    hide ProtocolMatchesWire, Leq;
    if entry.surface != "" {
      var r := if entry.surface in surfaces then Ok(surfaces[entry.surface]) else Err(SurfaceNotFound(entry.surface));
      assert IsSurface(surfaces, entry, wire, r);
    } else {
      var good := set id | id in surfaces && Eligible(surfaces, wire, id);
      if good == {} {
        assert forall id | id in surfaces && Eligible(surfaces, wire, id) :: id in good;
        assert IsSurface(surfaces, entry, wire, Err(NoSurface));
      } else {
        var id := HasLeast(good);
        assert IsAuto(surfaces, wire, id);
        assert IsSurface(surfaces, entry, wire, Ok(surfaces[id]));
      }
    }
  }

  lemma AutoUnique(surfaces: map<string, Surface>, wire: string, a: string, b: string)
    requires IsAuto(surfaces, wire, a) && IsAuto(surfaces, wire, b)
    ensures a == b
  {
    hide ProtocolMatchesWire, Leq;
    LeqAntisymmetric(a, b);
  }

  /** The surface of a pool entry does not depend on the order the surfaces are visited in. */
  lemma SurfaceUnique(
    surfaces: map<string, Surface>, entry: PoolEntry, wire: string,
    r: Result<Surface, ResolveError>, s: Result<Surface, ResolveError>)
    requires IsSurface(surfaces, entry, wire, r) && IsSurface(surfaces, entry, wire, s)
    ensures r == s
  {
    hide ProtocolMatchesWire, Leq;
    if entry.surface == "" && r.Ok? && s.Ok? {
      var a :| IsAuto(surfaces, wire, a) && r.value == surfaces[a];
      var b :| IsAuto(surfaces, wire, b) && s.value == surfaces[b];
      AutoUnique(surfaces, wire, a, b);
    }
  }

  ghost function SurfaceOf(surfaces: map<string, Surface>, entry: PoolEntry, wire: string): (r: Result<Surface, ResolveError>)
    ensures IsSurface(surfaces, entry, wire, r)
  {
    SurfaceExists(surfaces, entry, wire);
    var r :| IsSurface(surfaces, entry, wire, r);
    r
  }

  function UpstreamModel(model: string, entry: PoolEntry): string {
    if Trim(entry.model) != "" then Trim(entry.model) else Trim(model)
  }

  function MakeTarget(model: string, entry: PoolEntry, p: Provider, s: Surface): Target {
    Target(model, entry.providerRef, s.protocol, s.adapter, s.baseUrl,
           p.credentialProfile, UpstreamModel(model, entry), p.inject, p.injectPreset)
  }

  ghost function TargetOf(doc: Document, model: string, entry: PoolEntry, wire: string): Result<Target, ResolveError> {
    if entry.providerRef !in doc.providers then Err(UnknownProvider(entry.providerRef))
    else
      var p := doc.providers[entry.providerRef];
      match SurfaceOf(p.surfaces, entry, wire)
      case Err(e) => Err(e)
      case Ok(s) => Ok(MakeTarget(model, entry, p, s))
  }

  /** One target per entry in order, or the error of the first entry that has one. */
  ghost predicate IsTargets(
    doc: Document, model: string, entries: seq<PoolEntry>, wire: string, r: Result<seq<Target>, ResolveError>)
  {
    match r
    case Ok(ts) =>
      |ts| == |entries| && forall i | 0 <= i < |entries| :: TargetOf(doc, model, entries[i], wire) == Ok(ts[i])
    case Err(e) =>
      exists i | 0 <= i < |entries| ::
        && TargetOf(doc, model, entries[i], wire) == Err(e)
        && forall j | 0 <= j < i :: TargetOf(doc, model, entries[j], wire).Ok?
  }

  type Counters = map<string, nat>

  function Counter(rr: Counters, key: string): nat {
    if key in rr then rr[key] else 0
  }

  /** The counter a pool uses: named after the modality and the wire, not after the model. */
  function PoolKey(modality: string, wire: string): string {
    modality + "|" + wire
  }

  function StrategyOf(mod: Modality): string {
    if mod.strategy == "" then FAILOVER else mod.strategy
  }

  /** The pool entries to try and the counters afterwards. */
  function EntriesOf(
    rr: Counters, key: string, strategy: string, pool: seq<PoolEntry>): (Result<seq<PoolEntry>, ResolveError>, Counters)
  {
    if pool == [] then (Err(EmptyPool), rr)
    else if strategy == FAILOVER then (Ok(pool), rr)
    else if strategy == ROUND_ROBIN then
      (Ok([pool[Counter(rr, key) % |pool|]]), rr[key := Counter(rr, key) + 1])
    else (Err(UnknownStrategy), rr)
  }

  /** What resolving a model on a wire with a hint may return, and what it leaves the counters at. */
  ghost predicate Resolves(
    doc: Document, rr: Counters, model: string, wire: string, hint: string,
    r: Result<Plan, ResolveError>, rr': Counters)
  {
    if model !in doc.models then r == Err(UnknownModel) && rr' == rr
    else
      var m := doc.models[model];
      var names := Candidates(m, wire);
      if names == {} then r == Err(NoModality) && rr' == rr
      else
        match Picked(names, hint)
        case Err(e) => r == Err(e) && rr' == rr
        case Ok(name) =>
          name in m &&
          var mod := m[name];
          if mod.providers == [] then r == Err(EmptyPool) && rr' == rr
          else if StrategyOf(mod) == "sticky" then r == Err(StickyRemoved) && rr' == rr
          else
            var (entries, after) := EntriesOf(rr, PoolKey(name, wire), StrategyOf(mod), mod.providers);
            rr' == after &&
            match entries
            case Err(e) => r == Err(e)
            case Ok(es) =>
              match r
              case Ok(plan) => plan.strategy == StrategyOf(mod) && IsTargets(doc, model, es, wire, Ok(plan.targets))
              case Err(e) => IsTargets(doc, model, es, wire, Err(e))
  }

  lemma PickedIsCandidate(names: set<string>, hint: string)
    ensures Picked(names, hint).Ok? ==> Picked(names, hint).value in names
  {
    hide Trim;
  }

  lemma TargetsUnique(
    doc: Document, model: string, es: seq<PoolEntry>, wire: string,
    r: Result<seq<Target>, ResolveError>, s: Result<seq<Target>, ResolveError>)
    requires IsTargets(doc, model, es, wire, r) && IsTargets(doc, model, es, wire, s)
    ensures r == s
  {
    hide TargetOf;
    if r.Ok? && s.Ok? {
      assert forall i | 0 <= i < |es| :: Ok(r.value[i]) == TargetOf(doc, model, es[i], wire) == Ok(s.value[i]);
      assert r.value == s.value;
    } else if r.Err? && s.Err? {
      var i :| 0 <= i < |es| && TargetOf(doc, model, es[i], wire) == Err(r.error) &&
               forall j | 0 <= j < i :: TargetOf(doc, model, es[j], wire).Ok?;
      var k :| 0 <= k < |es| && TargetOf(doc, model, es[k], wire) == Err(s.error) &&
               forall j | 0 <= j < k :: TargetOf(doc, model, es[j], wire).Ok?;
      assert i == k;
    }
  }

  /** Resolution is a function of the document and the counters: whatever orders its maps are iterated in, the
      plan or the error is the same. */
  lemma ResolutionIsDetermined(
    doc: Document, rr: Counters, model: string, wire: string, hint: string,
    r: Result<Plan, ResolveError>, rr1: Counters, s: Result<Plan, ResolveError>, rr2: Counters)
    requires Resolves(doc, rr, model, wire, hint, r, rr1) && Resolves(doc, rr, model, wire, hint, s, rr2)
    ensures r == s && rr1 == rr2
  {
    hide Trim, Picked, Candidates, IsTargets;
    if model in doc.models && Candidates(doc.models[model], wire) != {} {
      var m := doc.models[model];
      var picked := Picked(Candidates(m, wire), hint);
      if picked.Ok? && m[picked.value].providers != [] && StrategyOf(m[picked.value]) != "sticky" {
        var mod := m[picked.value];
        var es := EntriesOf(rr, PoolKey(picked.value, wire), StrategyOf(mod), mod.providers).0;
        if es.Ok? {
          var x: Result<seq<Target>, ResolveError> := if r.Ok? then Ok(r.value.targets) else Err(r.error);
          var y: Result<seq<Target>, ResolveError> := if s.Ok? then Ok(s.value.targets) else Err(s.error);
          TargetsUnique(doc, model, es.value, wire, x, y);
        }
      }
    }
  }

  /** A plan always has something to try; a failover plan has exactly one target per pool entry, in pool order,
      and a round-robin plan has the one its counter points at. */
  lemma PlanShape(
    doc: Document, rr: Counters, model: string, wire: string, hint: string, plan: Plan, rr': Counters)
    requires Resolves(doc, rr, model, wire, hint, Ok(plan), rr')
    ensures plan.targets != [] && (plan.strategy == FAILOVER || plan.strategy == ROUND_ROBIN)
    ensures model in doc.models && Picked(Candidates(doc.models[model], wire), hint).Ok?
    ensures Picked(Candidates(doc.models[model], wire), hint).value in doc.models[model]
    ensures var name := Picked(Candidates(doc.models[model], wire), hint).value;
            var pool := doc.models[model][name].providers;
            && pool != []
            && (plan.strategy == FAILOVER ==>
                  && rr' == rr && |plan.targets| == |pool|
                  && forall i | 0 <= i < |pool| :: TargetOf(doc, model, pool[i], wire) == Ok(plan.targets[i]))
            && (plan.strategy == ROUND_ROBIN ==>
                  && rr' == rr[PoolKey(name, wire) := Counter(rr, PoolKey(name, wire)) + 1]
                  && |plan.targets| == 1
                  && TargetOf(doc, model, pool[Counter(rr, PoolKey(name, wire)) % |pool|], wire) == Ok(plan.targets[0]))
  {
    hide Trim, Picked, Candidates, TargetOf;
  }

  /** The pool entries a plan is made from. */
  ghost function Tried(doc: Document, rr: Counters, model: string, wire: string, hint: string): seq<PoolEntry> {
    if model !in doc.models then []
    else
      var m := doc.models[model];
      var picked := Picked(Candidates(m, wire), hint);
      if picked.Err? || picked.value !in m then []
      else
        var mod := m[picked.value];
        var entries := EntriesOf(rr, PoolKey(picked.value, wire), StrategyOf(mod), mod.providers).0;
        if entries.Ok? then entries.value else []
  }

  /** Target by target, a plan is what its pool entries resolve to. */
  lemma PlanTargets(
    doc: Document, rr: Counters, model: string, wire: string, hint: string, plan: Plan, rr': Counters)
    requires Resolves(doc, rr, model, wire, hint, Ok(plan), rr')
    ensures var es := Tried(doc, rr, model, wire, hint);
            && |plan.targets| == |es| > 0
            && forall i | 0 <= i < |es| :: TargetOf(doc, model, es[i], wire) == Ok(plan.targets[i])
  {
    hide Trim, Picked, Candidates, TargetOf;
  }

  /** What a plan's targets carry: the pool entry's own model name, or the client's exactly when the entry has none, the
      provider's credential profile and inject settings, and protocol, adapter and address of the surface the entry
      names, or else of the least surface without an adapter that matches the wire. */
  lemma TargetsFromEntries(
    doc: Document, rr: Counters, model: string, wire: string, hint: string, plan: Plan, rr': Counters, i: nat)
    requires Resolves(doc, rr, model, wire, hint, Ok(plan), rr') && i < |plan.targets|
    ensures i < |Tried(doc, rr, model, wire, hint)|
    ensures var e, t := Tried(doc, rr, model, wire, hint)[i], plan.targets[i];
            && e.providerRef in doc.providers
            && var p := doc.providers[e.providerRef];
               && t.model == model && t.providerRef == e.providerRef
               && t.upstreamModel == (if Blank(e.model) then Trim(model) else Trim(e.model))
               && t.credentialProfile == p.credentialProfile
               && t.inject == p.inject && t.injectPreset == p.injectPreset
               && (e.surface != "" ==>
                     e.surface in p.surfaces && Surface(t.protocol, t.adapter, t.baseUrl) == p.surfaces[e.surface])
               && (e.surface == "" ==>
                     exists id | id in p.surfaces ::
                       IsAuto(p.surfaces, wire, id) && Surface(t.protocol, t.adapter, t.baseUrl) == p.surfaces[id])
  {
    hide Resolves, Tried, Trim, Leq, ProtocolMatchesWire, TargetOf;
    PlanTargets(doc, rr, model, wire, hint, plan, rr');
    EntryTarget(doc, model, Tried(doc, rr, model, wire, hint)[i], wire, plan.targets[i]);
  }

  lemma EntryTarget(doc: Document, model: string, e: PoolEntry, wire: string, t: Target)
    requires TargetOf(doc, model, e, wire) == Ok(t)
    ensures e.providerRef in doc.providers
    ensures var p := doc.providers[e.providerRef];
            && t.model == model && t.providerRef == e.providerRef
            && t.upstreamModel == (if Blank(e.model) then Trim(model) else Trim(e.model))
            && t.credentialProfile == p.credentialProfile
            && t.inject == p.inject && t.injectPreset == p.injectPreset
            && (e.surface != "" ==>
                  e.surface in p.surfaces && Surface(t.protocol, t.adapter, t.baseUrl) == p.surfaces[e.surface])
            && (e.surface == "" ==>
                  exists id | id in p.surfaces ::
                    IsAuto(p.surfaces, wire, id) && Surface(t.protocol, t.adapter, t.baseUrl) == p.surfaces[id])
  {
    hide Trim, Leq, ProtocolMatchesWire;
    var p := doc.providers[e.providerRef];
    assert IsSurface(p.surfaces, e, wire, SurfaceOf(p.surfaces, e, wire));
  }

  /** The one protocol each wire takes for a surface that is not named; the chat wire has a second. */
  const STOCK_PROTOCOLS: map<string, string> := map[
    "openai-chat-completions" := "openai-chat-completions",
    "anthropic-messages" := "anthropic-messages",
    "openai-embeddings" := "openai-embeddings",
    "openai-responses" := "openai-responses",
    "openai-images-generations" := "openai-images",
    "openai-audio-speech" := "openai-tts",
    "openai-audio-transcriptions" := "openai-transcriptions",
    "openai-videos" := "openai-videos"]

  /** A provider with a surface for each stock protocol, none with an adapter and no two with the same protocol: on each
      wire the surface picked is the one that speaks it, and on an unknown wire none is. */
  lemma WirePicksItsSurface(surfaces: map<string, Surface>, entry: PoolEntry, wire: string)
    requires entry.surface == ""
    requires forall id | id in surfaces :: surfaces[id].adapter == "" && surfaces[id].protocol in STOCK_PROTOCOLS.Values
    requires forall a, b | a in surfaces && b in surfaces && surfaces[a].protocol == surfaces[b].protocol :: a == b
    requires forall p | p in STOCK_PROTOCOLS.Values :: exists id | id in surfaces :: surfaces[id].protocol == p
    ensures wire in STOCK_PROTOCOLS ==>
              SurfaceOf(surfaces, entry, wire).Ok? && SurfaceOf(surfaces, entry, wire).value.protocol == STOCK_PROTOCOLS[wire]
    ensures wire !in STOCK_PROTOCOLS ==> SurfaceOf(surfaces, entry, wire) == Err(NoSurface)
  {
    hide Leq, SurfaceOf, ProtocolMatchesWire;
    var s := SurfaceOf(surfaces, entry, wire);
    assert IsSurface(surfaces, entry, wire, s);
    forall id | id in surfaces
      ensures ProtocolMatchesWire(surfaces[id].protocol, wire) <==>
              wire in STOCK_PROTOCOLS && surfaces[id].protocol == STOCK_PROTOCOLS[wire]
    {
      StockMatch(surfaces[id].protocol, wire);
    }
    if wire in STOCK_PROTOCOLS {
      assert STOCK_PROTOCOLS[wire] in STOCK_PROTOCOLS.Values;
      var id :| id in surfaces && surfaces[id].protocol == STOCK_PROTOCOLS[wire];
      assert Eligible(surfaces, wire, id);
    }
  }

  lemma StockMatch(protocol: string, wire: string)
    requires protocol in STOCK_PROTOCOLS.Values
    ensures ProtocolMatchesWire(protocol, wire) <==> wire in STOCK_PROTOCOLS && protocol == STOCK_PROTOCOLS[wire]
  {
    assert |"openai-compat-chat"| == 18 && |"anthropic-messages"| == 18 && "openai-compat-chat"[0] != "anthropic-messages"[0];
    assert protocol != "openai-compat-chat";
  }

  /** The modality a request is about: one of the model's that serves the wire, namely the one hinted at; without a hint
      the only one there is, or `chat` when all the others are searches. */
  predicate Chosen(m: Model, wire: string, hint: string, name: string) {
    && name in m && m[name].wire == wire
    && if !Blank(hint) then name == Trim(hint)
       else || (forall other | other in m && m[other].wire == wire :: other == name)
            || (name == "chat" && forall other | other in m && m[other].wire == wire :: other in {"chat", "search_web", "search_x"})
  }

  lemma {:induction false} OneName(names: set<string>, name: string)
    requires name in names
    ensures |names| == 1 <==> names == {name}
  {
    if |names| == 1 {
      assert |names - {name}| == 0;
    }
  }

  lemma ChosenIsPicked(m: Model, wire: string, hint: string, name: string)
    ensures Chosen(m, wire, hint, name) ==> Picked(Candidates(m, wire), hint) == Ok(name)
    ensures Candidates(m, wire) != {} && Picked(Candidates(m, wire), hint) == Ok(name) ==> Chosen(m, wire, hint, name)
  {
    hide Trim, SortedNames;
    var names := Candidates(m, wire);
    assert forall other :: other in names <==> other in m && m[other].wire == wire;
    assert (forall other | other in names :: other in CHAT_FAMILY) <==> names <= CHAT_FAMILY;
    if Blank(hint) {
      if name in names {
        OneName(names, name);
        assert names == {name} <==> forall other | other in names :: other == name;
      }
      if "chat" in names {
        OneName(names, "chat");
      }
    }
  }

  /** How a request is resolved, told from the document: it is about at most one modality, and without one it is refused
      for an unknown model, for a model with nothing on the wire, for a hint that names nothing there, or because it
      could mean several. */
  lemma ModalityTold(
    doc: Document, rr: Counters, model: string, wire: string, hint: string, r: Result<Plan, ResolveError>, rr': Counters)
    requires Resolves(doc, rr, model, wire, hint, r, rr')
    ensures model !in doc.models ==> r == Err(UnknownModel) && rr' == rr
    ensures model in doc.models && (forall name | name in doc.models[model] :: doc.models[model][name].wire != wire) ==>
              r == Err(NoModality) && rr' == rr
    ensures model in doc.models ==>
              var m := doc.models[model];
              (exists name | name in m :: m[name].wire == wire) && (forall name :: !Chosen(m, wire, hint, name)) ==>
                && rr' == rr
                && if !Blank(hint) then r == Err(ModalityNotAvailable)
                   else r == Err(Ambiguous(SortedNames(set name | name in m && m[name].wire == wire)))
    ensures model in doc.models ==>
              forall a, b | Chosen(doc.models[model], wire, hint, a) && Chosen(doc.models[model], wire, hint, b) :: a == b
  {
    hide Trim, SortedNames, IsTargets, Chosen, StrategyOf, EntriesOf;
    if model in doc.models {
      var m := doc.models[model];
      forall name ensures Chosen(m, wire, hint, name) ==> Picked(Candidates(m, wire), hint) == Ok(name) {
        ChosenIsPicked(m, wire, hint, name);
      }
      assert forall name | name in m && m[name].wire == wire :: name in Candidates(m, wire);
      var picked := Picked(Candidates(m, wire), hint);
      if picked.Ok? {
        ChosenIsPicked(m, wire, hint, picked.value);
      }
    }
  }

  /** What becomes of the modality it is about: an empty pool, a strategy of `sticky` and any other unknown strategy are
      refused in that order. Failover, also when no strategy is given, tries the whole pool and leaves the counters;
      round robin takes the entry its counter points at and counts one more. */
  lemma PoolTold(
    doc: Document, rr: Counters, model: string, wire: string, hint: string, r: Result<Plan, ResolveError>, rr': Counters,
    name: string)
    requires Resolves(doc, rr, model, wire, hint, r, rr')
    requires model in doc.models && Chosen(doc.models[model], wire, hint, name)
    ensures var (pool, strategy) := (doc.models[model][name].providers, doc.models[model][name].strategy);
            var key, tried := name + "|" + wire, Tried(doc, rr, model, wire, hint);
            if pool == [] then r == Err(EmptyPool) && rr' == rr
            else if strategy == "sticky" then r == Err(StickyRemoved) && rr' == rr
            else if strategy == "" || strategy == "failover" then
              rr' == rr && tried == pool && (r.Ok? ==> r.value.strategy == "failover")
            else if strategy == "round_robin" then
              && tried == [pool[Counter(rr, key) % |pool|]] && rr' == rr[key := Counter(rr, key) + 1]
              && (r.Ok? ==> r.value.strategy == "round_robin")
            else r == Err(UnknownStrategy) && rr' == rr
  {
    hide Trim, SortedNames, Chosen, Picked, TargetOf, IsTargets;
    ChosenIsPicked(doc.models[model], wire, hint, name);
    ChosenServes(doc.models[model], wire, hint, name);
    StrategyNames();
  }

  /** Such a request gets a plan exactly when none of the entries tried is in trouble, and otherwise the trouble of the
      first that is. */
  lemma PlanOrTrouble(
    doc: Document, rr: Counters, model: string, wire: string, hint: string, r: Result<Plan, ResolveError>, rr': Counters,
    name: string)
    requires Resolves(doc, rr, model, wire, hint, r, rr')
    requires model in doc.models && Chosen(doc.models[model], wire, hint, name)
    requires var mod := doc.models[model][name];
             mod.providers != [] && mod.strategy in {"", "failover", "round_robin"}
    ensures var tried := Tried(doc, rr, model, wire, hint);
            match r
            case Ok(plan) => |plan.targets| == |tried| && forall i | 0 <= i < |tried| :: Trouble(doc, tried[i], wire) == None
            case Err(e) => exists i | 0 <= i < |tried| ::
                             && Trouble(doc, tried[i], wire) == Some(e)
                             && forall j | 0 <= j < i :: Trouble(doc, tried[j], wire) == None
  {
    hide Trim, SortedNames, Chosen, Picked, TargetOf, Trouble;
    ChosenIsPicked(doc.models[model], wire, hint, name);
    ChosenServes(doc.models[model], wire, hint, name);
    StrategyNames();
    var tried := Tried(doc, rr, model, wire, hint);
    var ts: Result<seq<Target>, ResolveError> := if r.Ok? then Ok(r.value.targets) else Err(r.error);
    assert IsTargets(doc, model, tried, wire, ts);
    TargetsOrTrouble(doc, model, tried, wire, ts);
  }

  lemma TargetsOrTrouble(
    doc: Document, model: string, tried: seq<PoolEntry>, wire: string, ts: Result<seq<Target>, ResolveError>)
    requires IsTargets(doc, model, tried, wire, ts)
    ensures match ts
            case Ok(targets) => |targets| == |tried| && forall i | 0 <= i < |tried| :: Trouble(doc, tried[i], wire) == None
            case Err(e) => exists i | 0 <= i < |tried| ::
                             && Trouble(doc, tried[i], wire) == Some(e)
                             && forall j | 0 <= j < i :: Trouble(doc, tried[j], wire) == None
  {
    hide TargetOf, Trouble;
    forall i | 0 <= i < |tried| ensures TroubleIs(doc, model, tried[i], wire) {
      TroubleTold(doc, model, tried[i], wire);
    }
    assert forall i | 0 <= i < |tried| && TroubleIs(doc, model, tried[i], wire) ::
        TargetOf(doc, model, tried[i], wire).Ok? <==> Trouble(doc, tried[i], wire) == None;
  }

  lemma ChosenServes(m: Model, wire: string, hint: string, name: string)
    requires Chosen(m, wire, hint, name)
    ensures name in Candidates(m, wire)
  {
  }

  lemma StrategyNames()
    ensures FAILOVER != "sticky" && ROUND_ROBIN != "sticky" && FAILOVER != ROUND_ROBIN && FAILOVER != "" && ROUND_ROBIN != ""
  {
    assert |FAILOVER| == 8 && |ROUND_ROBIN| == 11 && |"sticky"| == 6;
  }

  /** What keeps a pool entry from becoming a target: a provider that is not there, a surface it names that the provider
      does not have, or, when it names none, no surface without an adapter for the wire. */
  function Trouble(doc: Document, e: PoolEntry, wire: string): Option<ResolveError> {
    if e.providerRef !in doc.providers then Some(UnknownProvider(e.providerRef))
    else
      var surfaces := doc.providers[e.providerRef].surfaces;
      if e.surface != "" then if e.surface in surfaces then None else Some(SurfaceNotFound(e.surface))
      else if exists id | id in surfaces :: surfaces[id].adapter == "" && ProtocolMatchesWire(surfaces[id].protocol, wire) then None
      else Some(NoSurface)
  }

  ghost predicate TroubleIs(doc: Document, model: string, e: PoolEntry, wire: string) {
    Trouble(doc, e, wire) ==
    match TargetOf(doc, model, e, wire)
    case Ok(_) => None
    case Err(why) => Some(why)
  }

  lemma TroubleTold(doc: Document, model: string, e: PoolEntry, wire: string)
    ensures TroubleIs(doc, model, e, wire)
  {
    hide ProtocolMatchesWire, Leq, SurfaceOf, UpstreamModel;
    if e.providerRef in doc.providers {
      var surfaces := doc.providers[e.providerRef].surfaces;
      var s := SurfaceOf(surfaces, e, wire);
      assert IsSurface(surfaces, e, wire, s);
      assert forall id | id in surfaces :: Eligible(surfaces, wire, id) <==>
               surfaces[id].adapter == "" && ProtocolMatchesWire(surfaces[id].protocol, wire);
    }
  }

  /** A provider in the flat form serves, under the name `default` or none, the wire its protocol matches. */
  lemma FlatProvider(given: Document, model: string, e: PoolEntry, wire: string)
    requires e.providerRef in given.providers && (e.surface == "" || e.surface == "default")
    requires var p := given.providers[e.providerRef];
             p.surfaces == map[] && p.protocol != "" && ProtocolMatchesWire(p.protocol, wire)
    ensures var t := TargetOf(Normalized(given), model, e, wire);
            var p := given.providers[e.providerRef];
            t.Ok? && t.value.protocol == p.protocol && t.value.baseUrl == p.baseUrl && t.value.adapter == ""
  {
    hide ProtocolMatchesWire, Leq, SurfaceOf, UpstreamModel;
    var p := Normalized(given).providers[e.providerRef];
    var s := SurfaceOf(p.surfaces, e, wire);
    assert IsSurface(p.surfaces, e, wire, s);
    assert p.surfaces == map["default" := p.surfaces["default"]];
    assert "default" in p.surfaces && (e.surface == "" ==> Eligible(p.surfaces, wire, "default"));
  }

  /** Two modalities share a counter only if they have one name and one wire, unless a name or wire holds the separator. */
  lemma OneCounterEach(a: string, v: string, b: string, w: string)
    requires '|' !in a && '|' !in b
    ensures PoolKey(a, v) == PoolKey(b, w) <==> a == b && v == w
  {
    var x, y := PoolKey(a, v), PoolKey(b, w);
    assert x[|a|] == '|' && y[|b|] == '|';
    assert x[..|a|] == a && y[..|b|] == b && x[|a| + 1..] == v && y[|b| + 1..] == w;
    assert forall i | 0 <= i < |a| :: x[i] == a[i] && a[i] in a;
    assert forall i | 0 <= i < |b| :: y[i] == b[i] && b[i] in b;
  }

  // ---------- the catalog as the source runs it ----------

  class Catalog {
    const doc: Document
    var rr: Counters

    /** `NewFromDocument` rewrites flat providers as it goes through the map. */
    constructor (given: Document)
      ensures doc == Normalized(given) && rr == map[]
    {
      hide NormalProvider;
      var providers := given.providers;
      var rest := given.providers.Keys;
      while rest != {}
        invariant rest <= given.providers.Keys == providers.Keys
        invariant forall name | name in providers ::
                    providers[name] == if name in rest then given.providers[name] else NormalProvider(given.providers[name])
        decreases rest
      {
        var name :| name in rest;
        rest := rest - {name};
        providers := providers[name := NormalProvider(providers[name])];
      }
      doc := given.(providers := providers);
      rr := map[];
    }

    /** `pickModality`. */
    method PickModality(candidates: seq<string>, hint: string) returns (r: Result<string, ResolveError>)
      ensures r == PickedFrom(candidates, hint)
    {
      hide Trim;
      var wanted := Trim(hint);
      if wanted != "" {
        for i := 0 to |candidates|
          invariant forall j | 0 <= j < i :: candidates[j] != wanted
        {
          if candidates[i] == wanted {
            return Ok(candidates[i]);
          }
        }
        return Err(ModalityNotAvailable);
      }
      if |candidates| == 1 {
        return Ok(candidates[0]);
      }
      if "chat" in candidates {
        var onlySiblings := true;
        for i := 0 to |candidates|
          invariant onlySiblings <==> forall j | 0 <= j < i :: candidates[j] in CHAT_FAMILY
        {
          if candidates[i] != "chat" && candidates[i] != "search_web" && candidates[i] != "search_x" {
            onlySiblings := false;
          }
        }
        if onlySiblings {
          return Ok("chat");
        }
      }
      r := Err(Ambiguous(candidates));
    }

    /** `surfaceFor`: the ids are collected in map order, sorted, and scanned. */
    method SurfaceFor(p: Provider, entry: PoolEntry, wire: string) returns (r: Result<Surface, ResolveError>)
      ensures r == SurfaceOf(p.surfaces, entry, wire)
    {
      hide ProtocolMatchesWire, Sort, Leq, SurfaceOf;
      ghost var expected := SurfaceOf(p.surfaces, entry, wire);
      if entry.surface != "" {
        r := if entry.surface in p.surfaces then Ok(p.surfaces[entry.surface]) else Err(SurfaceNotFound(entry.surface));
        return;
      }
      var order := CollectKeys(p.surfaces.Keys);
      var ids := Sort(order);
      var i := 0;
      while i < |ids|
        invariant 0 <= i <= |ids|
        invariant forall j | 0 <= j < i :: !Eligible(p.surfaces, wire, ids[j])
      {
        assert ids[i] in Elements(ids);
        var s := p.surfaces[ids[i]];
        if s.adapter == "" && ProtocolMatchesWire(s.protocol, wire) {
          FirstIsAuto(p.surfaces, wire, ids, i);
          SurfaceUnique(p.surfaces, entry, wire, Ok(s), expected);
          return Ok(s);
        }
        i := i + 1;
      }
      forall id | id in p.surfaces ensures !Eligible(p.surfaces, wire, id) {
        assert id in Elements(ids);
      }
      SurfaceUnique(p.surfaces, entry, wire, Err(NoSurface), expected);
      r := Err(NoSurface);
    }

    method TargetFromEntry(model: string, entry: PoolEntry, wire: string) returns (r: Result<Target, ResolveError>)
      ensures r == TargetOf(doc, model, entry, wire)
    {
      if entry.providerRef !in doc.providers {
        return Err(UnknownProvider(entry.providerRef));
      }
      var p := doc.providers[entry.providerRef];
      var s := SurfaceFor(p, entry, wire);
      if s.Err? {
        return Err(s.error);
      }
      var upstreamModel := Trim(entry.model);
      if upstreamModel == "" {
        upstreamModel := Trim(model);
      }
      r := Ok(Target(model, entry.providerRef, s.value.protocol, s.value.adapter, s.value.baseUrl,
                     p.credentialProfile, upstreamModel, p.inject, p.injectPreset));
    }

    /** `pickEntries`, run under the catalog's mutex. */
    method PickEntries(key: string, strategy: string, pool: seq<PoolEntry>) returns (r: Result<seq<PoolEntry>, ResolveError>)
      modifies this
      ensures (r, rr) == EntriesOf(old(rr), key, strategy, pool)
    {
      if pool == [] {
        return Err(EmptyPool);
      }
      if strategy == FAILOVER {
        return Ok(pool);
      }
      if strategy == ROUND_ROBIN {
        var idx := if key in rr then rr[key] else 0;
        var i := idx % |pool|;
        rr := rr[key := idx + 1];
        return Ok([pool[i]]);
      }
      r := Err(UnknownStrategy);
    }

    method ResolveWithModality(model: string, wire: string, hint: string) returns (r: Result<Plan, ResolveError>)
      modifies this
      ensures Resolves(doc, old(rr), model, wire, hint, r, rr)
    {
      hide Trim, Picked, PickedFrom, TargetOf, Sort, EntriesOf;
      if model !in doc.models {
        return Err(UnknownModel);
      }
      var m := doc.models[model];
      var modNames := [];
      var rest := m.Keys;
      while rest != {}
        invariant rest <= m.Keys
        invariant Distinct(modNames) && Elements(modNames) == Candidates(m, wire) - rest
        decreases rest
      {
        var name :| name in rest;
        rest := rest - {name};
        if m[name].wire == wire {
          assert name !in Elements(modNames);
          assert Elements(modNames + [name]) == Elements(modNames) + {name};
          modNames := modNames + [name];
        }
      }
      assert Elements(modNames) == Candidates(m, wire);
      SortedListing(modNames, Candidates(m, wire));
      SortDistinct(modNames);
      modNames := Sort(modNames);
      if |modNames| == 0 {
        assert Candidates(m, wire) == {};
        return Err(NoModality);
      }
      assert modNames[0] in Elements(modNames);
      var picked := PickModality(modNames, hint);
      PickedFromSorted(modNames, Candidates(m, wire), hint);
      PickedIsCandidate(Candidates(m, wire), hint);
      if picked.Err? {
        return Err(picked.error);
      }
      var mod := m[picked.value];
      if |mod.providers| == 0 {
        return Err(EmptyPool);
      }
      var strat := mod.strategy;
      if strat == "" {
        strat := FAILOVER;
      }
      if strat == "sticky" {
        return Err(StickyRemoved);
      }
      var entries := PickEntries(PoolKey(picked.value, wire), strat, mod.providers);
      if entries.Err? {
        return Err(entries.error);
      }
      var targets := [];
      for i := 0 to |entries.value|
        invariant |targets| == i
        invariant forall j | 0 <= j < i :: TargetOf(doc, model, entries.value[j], wire) == Ok(targets[j])
        invariant (entries, rr) == EntriesOf(old(rr), PoolKey(picked.value, wire), strat, mod.providers)
      {
        var t := TargetFromEntry(model, entries.value[i], wire);
        if t.Err? {
          return Err(t.error);
        }
        targets := targets + [t.value];
      }
      r := Ok(Plan(strat, targets));
    }

    /** `modelWires`: the distinct wires of a model's modalities, in map order. */
    method ModelWires(m: Model) returns (wires: seq<string>)
      ensures Distinct(wires)
      ensures Elements(wires) == set name | name in m :: m[name].wire
    {
      var seen := {};
      var rest := m.Keys;
      while rest != {}
        invariant rest <= m.Keys
        invariant seen == set name | name in m && name !in rest :: m[name].wire
        decreases rest
      {
        var name :| name in rest;
        assert (set n | n in m && n !in rest - {name} :: m[n].wire) == seen + {m[name].wire};
        rest := rest - {name};
        seen := seen + {m[name].wire};
      }
      assert seen == set name | name in m :: m[name].wire;
      wires := CollectKeys(seen);
    }

    /** `listModels`: a model with modalities is listed exactly when the scopes authorize one of its wires, and
        the ids come sorted, each once. */
    method ListModels(scopes: Scopes.Scopes) returns (ids: seq<string>)
      ensures Sorted(ids) && Distinct(ids) && Elements(ids) <= doc.models.Keys
      ensures forall id | id in doc.models && doc.models[id] != map[] ::
                id in ids <==> exists name | name in doc.models[id] :: Scopes.Authorize(scopes, id, doc.models[id][name].wire)
      ensures forall id | id in doc.models && doc.models[id] == map[] ::
                id in ids <==> Scopes.FilterModels(scopes, id, [])
    {
      hide Sort, Leq, Scopes.FilterModels, Scopes.Authorize;
      var order := CollectKeys(doc.models.Keys);
      SortDistinct(order);
      var all := Sort(order);
      ids := [];
      for i := 0 to |all|
        invariant Sorted(ids) && Distinct(ids)
        invariant forall id | id in ids :: id in all[..i]
        invariant forall j | 0 <= j < i ::
                    all[j] in doc.models && (all[j] in ids <==> Listed(doc.models[all[j]], scopes, all[j]))
      {
        var id := all[i];
        assert id in Elements(all);
        var wires := ModelWires(doc.models[id]);
        ListedIsFiltered(doc.models[id], scopes, id, wires);
        assert forall x | x in ids :: exists j | 0 <= j < i :: all[j] == x;
        assert all[..i + 1] == all[..i] + [id];
        if Scopes.FilterModels(scopes, id, wires) {
          forall k | 0 <= k < |ids| ensures Leq(ids[k], id) && ids[k] != id {
            assert ids[k] in ids;
            var j :| 0 <= j < i && all[j] == ids[k];
          }
          ids := ids + [id];
        }
      }
      forall id | id in doc.models ensures id in ids <==> Listed(doc.models[id], scopes, id) {
        assert id in Elements(all);
        var j :| 0 <= j < |all| && all[j] == id;
      }
      assert all[..|all|] == all;
    }
  }

  lemma {:induction false} DistinctSize<T>(xs: seq<T>)
    requires Distinct(xs)
    ensures |Elements(xs)| == |xs|
  {
    if xs != [] {
      var n := |xs| - 1;
      DistinctSize(xs[..n]);
      assert Elements(xs) == Elements(xs[..n]) + {xs[n]};
      assert xs[n] !in Elements(xs[..n]);
    }
  }

  /** The first eligible id of a sorted listing is the least one. */
  lemma FirstIsAuto(surfaces: map<string, Surface>, wire: string, ids: seq<string>, i: nat)
    requires Sorted(ids) && Elements(ids) == surfaces.Keys && i < |ids|
    requires Eligible(surfaces, wire, ids[i]) && forall j | 0 <= j < i :: !Eligible(surfaces, wire, ids[j])
    ensures IsAuto(surfaces, wire, ids[i])
  {
    hide ProtocolMatchesWire, Leq;
    forall other | other in surfaces && Eligible(surfaces, wire, other) ensures Leq(ids[i], other) {
      assert other in Elements(ids);
      var j :| 0 <= j < |ids| && ids[j] == other;
      LeqTotal(other, other);
    }
  }

  ghost predicate Listed(m: Model, scopes: Scopes.Scopes, id: string) {
    if m == map[] then Scopes.FilterModels(scopes, id, [])
    else exists name | name in m :: Scopes.Authorize(scopes, id, m[name].wire)
  }

  lemma NoElements<T>(xs: seq<T>)
    ensures Elements(xs) == {} <==> xs == []
  {
    assert xs != [] ==> xs[0] in Elements(xs);
  }

  lemma ListedIsFiltered(m: Model, scopes: Scopes.Scopes, id: string, wires: seq<string>)
    requires Elements(wires) == set name | name in m :: m[name].wire
    ensures Listed(m, scopes, id) <==> Scopes.FilterModels(scopes, id, wires)
  {
    hide Scopes.FilterModels, Scopes.Authorize;
    if m == map[] {
      NoElements(wires);
    } else {
      var name :| name in m;
      assert m[name].wire in Elements(wires);
      NoElements(wires);
      Scopes.ShownIffSomeWireAuthorized(scopes, id, wires);
      assert forall w | w in wires :: w in Elements(wires);
      assert forall n | n in m :: m[n].wire in Elements(wires);
    }
  }
}
