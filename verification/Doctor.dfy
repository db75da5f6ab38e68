/** Handler lookup by wire (wire/dispatch.go, wire/wire.go `forward`), the stock handler table
    (passthrough/adapter.go), and what `adapters doctor` proves about a catalog (catalog/catalog.go,
    cmd/daigate/adapters.go). A handler is represented by the name it is registered under. */
module Doctor {
  import opened Text
  import opened Catalog

  datatype Registry = Registry(
    chat: set<string>, embed: set<string>, image: set<string>, speech: set<string>,
    transcription: set<string>, video: set<string>,
    chatAdapters: set<string>, embedAdapters: set<string>, imageAdapters: set<string>,
    speechAdapters: set<string>, videoAdapters: set<string>)

  const NOTHING := Registry({}, {}, {}, {}, {}, {}, {}, {}, {}, {}, {})

  datatype Slot = ChatSlot | EmbedSlot | ImageSlot | SpeechSlot | TranscriptionSlot | VideoSlot

  function RegisterIn(reg: Registry, slot: Slot, name: string): Registry {
    match slot
    case ChatSlot => reg.(chat := reg.chat + {name})
    case EmbedSlot => reg.(embed := reg.embed + {name})
    case ImageSlot => reg.(image := reg.image + {name})
    case SpeechSlot => reg.(speech := reg.speech + {name})
    case TranscriptionSlot => reg.(transcription := reg.transcription + {name})
    case VideoSlot => reg.(video := reg.video + {name})
  }

  /** What the passthrough adapter leaves in an empty registry. */
  const STOCK := Registry(
    {"openai-chat-completions", "anthropic-messages", "openai-responses"}, {"openai-embeddings"}, {"openai-images"},
    {"openai-tts"}, {"openai-transcriptions"}, {"openai-videos"}, {}, {}, {}, {}, {})

  method RegisterPassthrough() returns (reg: Registry)
    ensures reg == STOCK
  {
    reg := NOTHING;
    reg := RegisterIn(reg, ChatSlot, "openai-chat-completions");
    reg := RegisterIn(reg, ChatSlot, "anthropic-messages");
    reg := RegisterIn(reg, ChatSlot, "openai-responses");
    reg := RegisterIn(reg, EmbedSlot, "openai-embeddings");
    reg := RegisterIn(reg, ImageSlot, "openai-images");
    reg := RegisterIn(reg, SpeechSlot, "openai-tts");
    reg := RegisterIn(reg, TranscriptionSlot, "openai-transcriptions");
    reg := RegisterIn(reg, VideoSlot, "openai-videos");
  }

  // ---------- lookup ----------

  /** The maps `forward` consults for a wire: protocol handlers and translate adapters. */
  function HandlersFor(reg: Registry, wire: string): (set<string>, set<string>) {
    if wire == WIRE_EMBED then (reg.embed, reg.embedAdapters)
    else if wire == WIRE_IMAGES then (reg.image, reg.imageAdapters)
    else if wire == WIRE_SPEECH then (reg.speech, reg.speechAdapters)
    else if wire == WIRE_TRANSCRIPTIONS then (reg.transcription, {})
    else if wire == WIRE_VIDEOS then (reg.video, reg.videoAdapters)
    else (reg.chat, reg.chatAdapters)
  }

  /** `lookupHandler` finds a handler for the target on this wire. */
  predicate Found(reg: Registry, wire: string, t: Target) {
    if t.adapter != "" then t.adapter in HandlersFor(reg, wire).1 else t.protocol in HandlersFor(reg, wire).0
  }

  /** Which targets the stock handlers serve: none that wants an adapter, and of the others those whose protocol is for
      the wire. The three text wires are one: each serves all three protocols. */
  lemma StockServes(wire: string, t: Target)
    ensures Found(STOCK, wire, t) <==>
            && t.adapter == ""
            && if wire in {"openai-embeddings", "openai-images-generations", "openai-audio-speech",
                           "openai-audio-transcriptions", "openai-videos"}
               then wire in STOCK_PROTOCOLS && t.protocol == STOCK_PROTOCOLS[wire]
               else t.protocol in {"openai-chat-completions", "anthropic-messages", "openai-responses"}
  {
  }

  // ---------- the doctor ----------

  /** The protocol names the doctor command counts as registered; transcription handlers are not among them. */
  function DoctorProtocols(reg: Registry): set<string> {
    reg.chat + reg.embed + reg.image + reg.speech + reg.video
  }

  function DoctorAdapters(reg: Registry): set<string> {
    reg.imageAdapters + reg.speechAdapters + reg.embedAdapters + reg.videoAdapters + reg.chatAdapters
  }

  /** A protocol some surface or flat provider entry names. */
  predicate NamesProtocol(doc: Document, name: string) {
    name != "" && exists ref | ref in doc.providers ::
      doc.providers[ref].protocol == name ||
      exists id | id in doc.providers[ref].surfaces :: doc.providers[ref].surfaces[id].protocol == name
  }

  predicate NamesAdapter(doc: Document, name: string) {
    name != "" && exists ref | ref in doc.providers ::
      exists id | id in doc.providers[ref].surfaces :: doc.providers[ref].surfaces[id].adapter == name
  }

  /** Everything the catalog names is among these. */
  ghost predicate Covers(protocols: set<string>, adapters: set<string>, doc: Document) {
    && (forall name | NamesProtocol(doc, name) :: name in protocols)
    && (forall name | NamesAdapter(doc, name) :: name in adapters)
  }

  /** What the providers visited so far name. */
  ghost predicate Seen(doc: Document, visited: set<string>, protocols: set<string>, adapters: set<string>) {
    && (forall name :: name in protocols <==>
          name != "" && exists ref | ref in visited && ref in doc.providers ::
            doc.providers[ref].protocol == name || name in SurfaceProtocols(doc.providers[ref].surfaces))
    && (forall name :: name in adapters <==>
          name != "" && exists ref | ref in visited && ref in doc.providers ::
            name in SurfaceAdapters(doc.providers[ref].surfaces))
  }

  function SurfaceProtocols(surfaces: map<string, Surface>): set<string> {
    set id | id in surfaces && surfaces[id].protocol != "" :: surfaces[id].protocol
  }

  function SurfaceAdapters(surfaces: map<string, Surface>): set<string> {
    set id | id in surfaces && surfaces[id].adapter != "" :: surfaces[id].adapter
  }

  method SurfaceNames(surfaces: map<string, Surface>) returns (protocols: set<string>, adapters: set<string>)
    ensures protocols == SurfaceProtocols(surfaces) && adapters == SurfaceAdapters(surfaces)
  {
    protocols, adapters := {}, {};
    var rest := surfaces.Keys;
    while rest != {}
      invariant rest <= surfaces.Keys
      invariant protocols == set id | id in surfaces && id !in rest && surfaces[id].protocol != "" :: surfaces[id].protocol
      invariant adapters == set id | id in surfaces && id !in rest && surfaces[id].adapter != "" :: surfaces[id].adapter
      decreases rest
    {
      var id :| id in rest;
      rest := rest - {id};
      if surfaces[id].adapter != "" {
        adapters := adapters + {surfaces[id].adapter};
      }
      if surfaces[id].protocol != "" {
        protocols := protocols + {surfaces[id].protocol};
      }
    }
  }

  /** `RegisteredRoutes`: the names found do not depend on the order the providers are visited in. */
  method RegisteredRoutes(doc: Document) returns (protocols: seq<string>, adapters: seq<string>)
    ensures forall name :: name in protocols <==> NamesProtocol(doc, name)
    ensures forall name :: name in adapters <==> NamesAdapter(doc, name)
  {
    hide SurfaceProtocols, SurfaceAdapters;
    var seenP, seenA := {}, {};
    var rest := doc.providers.Keys;
    while rest != {}
      invariant rest <= doc.providers.Keys
      invariant Seen(doc, doc.providers.Keys - rest, seenP, seenA)
      decreases rest
    {
      var ref :| ref in rest;
      var visited := doc.providers.Keys - rest;
      var ps, ads := SurfaceNames(doc.providers[ref].surfaces);
      var flat := if doc.providers[ref].protocol != "" then {doc.providers[ref].protocol} else {};
      SeenMore(doc, visited, seenP, seenA, ref);
      rest := rest - {ref};
      assert doc.providers.Keys - rest == visited + {ref};
      seenP, seenA := seenP + ps + flat, seenA + ads;
    }
    assert doc.providers.Keys - rest == doc.providers.Keys;
    SeenAll(doc, seenP, seenA);
    protocols := CollectKeys(seenP);
    adapters := CollectKeys(seenA);
    assert forall name :: name in protocols <==> name in Elements(protocols);
    assert forall name :: name in adapters <==> name in Elements(adapters);
  }

  lemma SeenMore(doc: Document, visited: set<string>, protocols: set<string>, adapters: set<string>, ref: string)
    requires Seen(doc, visited, protocols, adapters) && ref in doc.providers
    ensures var p := doc.providers[ref];
            Seen(doc, visited + {ref},
                 protocols + SurfaceProtocols(p.surfaces) + (if p.protocol != "" then {p.protocol} else {}),
                 adapters + SurfaceAdapters(p.surfaces))
  {
    assert "" !in SurfaceProtocols(doc.providers[ref].surfaces) && "" !in SurfaceAdapters(doc.providers[ref].surfaces);
    hide SurfaceProtocols, SurfaceAdapters;
  }

  lemma SeenAll(doc: Document, protocols: set<string>, adapters: set<string>)
    requires Seen(doc, doc.providers.Keys, protocols, adapters)
    ensures forall name :: name in protocols <==> NamesProtocol(doc, name)
    ensures forall name :: name in adapters <==> NamesAdapter(doc, name)
  {
    forall name ensures name in protocols <==> NamesProtocol(doc, name) {
      assert forall ref | ref in doc.providers && name != "" ::
          name in SurfaceProtocols(doc.providers[ref].surfaces) <==>
          exists id | id in doc.providers[ref].surfaces :: doc.providers[ref].surfaces[id].protocol == name;
    }
    forall name ensures name in adapters <==> NamesAdapter(doc, name) {
      assert forall ref | ref in doc.providers && name != "" ::
          name in SurfaceAdapters(doc.providers[ref].surfaces) <==>
          exists id | id in doc.providers[ref].surfaces :: doc.providers[ref].surfaces[id].adapter == name;
    }
  }

  datatype Missing = MissingProtocol(name: string) | MissingAdapter(name: string)

  /** `Doctor` reports exactly the names the catalog uses and the registry does not have. */
  method Examine(doc: Document, protocols: set<string>, adapters: set<string>) returns (missing: seq<Missing>)
    ensures forall name :: MissingProtocol(name) in missing <==> NamesProtocol(doc, name) && name !in protocols
    ensures forall name :: MissingAdapter(name) in missing <==> NamesAdapter(doc, name) && name !in adapters
    ensures missing == [] <==> Covers(protocols, adapters, doc)
  {
    hide NamesProtocol, NamesAdapter;
    var ps, ads := RegisteredRoutes(doc);
    missing := [];
    for i := 0 to |ps|
      invariant forall name :: MissingProtocol(name) in missing <==> name in ps[..i] && name !in protocols
      invariant forall name :: MissingAdapter(name) !in missing
    {
      assert ps[..i + 1] == ps[..i] + [ps[i]];
      if ps[i] !in protocols {
        missing := missing + [MissingProtocol(ps[i])];
      }
    }
    assert ps[..|ps|] == ps;
    ghost var first := missing;
    for i := 0 to |ads|
      invariant forall name :: MissingProtocol(name) in missing <==> MissingProtocol(name) in first
      invariant forall name :: MissingAdapter(name) in missing <==> name in ads[..i] && name !in adapters
    {
      assert ads[..i + 1] == ads[..i] + [ads[i]];
      if ads[i] !in adapters {
        missing := missing + [MissingAdapter(ads[i])];
      }
    }
    assert ads[..|ads|] == ads;
    NothingMissing(missing, doc, protocols, adapters);
  }

  /** The names the maps have between them, one loop a map. */
  method Gather(maps: seq<set<string>>) returns (names: set<string>)
    ensures forall n :: n in names <==> exists i | 0 <= i < |maps| :: n in maps[i]
  {
    names := {};
    for i := 0 to |maps|
      invariant forall n :: n in names <==> exists j | 0 <= j < i :: n in maps[j]
    {
      ghost var before := names;
      var rest := maps[i];
      while rest != {}
        invariant rest <= maps[i] && names == before + (maps[i] - rest)
        decreases rest
      {
        var n :| n in rest;
        rest := rest - {n};
        names := names + {n};
      }
    }
  }

  /** `adapters doctor`: it passes a catalog exactly when everything the catalog names is registered, as far as the
      command looks. */
  method AdaptersDoctor(doc: Document, reg: Registry) returns (missing: seq<Missing>)
    ensures missing == [] <==> Covers(DoctorProtocols(reg), DoctorAdapters(reg), doc)
  {
    hide Covers;
    var protocolMaps := [reg.chat, reg.embed, reg.image, reg.speech, reg.video];
    var adapterMaps := [reg.imageAdapters, reg.speechAdapters, reg.embedAdapters, reg.videoAdapters, reg.chatAdapters];
    var protocols := Gather(protocolMaps);
    var adapters := Gather(adapterMaps);
    FiveMaps(protocolMaps, protocols);
    FiveMaps(adapterMaps, adapters);
    missing := Examine(doc, protocols, adapters);
  }

  lemma FiveMaps(maps: seq<set<string>>, names: set<string>)
    requires |maps| == 5 && forall n :: n in names <==> exists i | 0 <= i < |maps| :: n in maps[i]
    ensures names == maps[0] + maps[1] + maps[2] + maps[3] + maps[4]
  {
  }

  lemma NothingMissing(missing: seq<Missing>, doc: Document, protocols: set<string>, adapters: set<string>)
    requires forall name :: MissingProtocol(name) in missing <==> NamesProtocol(doc, name) && name !in protocols
    requires forall name :: MissingAdapter(name) in missing <==> NamesAdapter(doc, name) && name !in adapters
    ensures missing == [] <==> Covers(protocols, adapters, doc)
  {
    hide NamesProtocol, NamesAdapter;
    if missing != [] {
      match missing[0]
      case MissingProtocol(name) => assert MissingProtocol(name) in missing;
      case MissingAdapter(name) => assert MissingAdapter(name) in missing;
    }
    if !Covers(protocols, adapters, doc) {
      if name :| NamesProtocol(doc, name) && name !in protocols {
        assert MissingProtocol(name) in missing;
      } else {
        var name :| NamesAdapter(doc, name) && name !in adapters;
        assert MissingAdapter(name) in missing;
      }
    }
  }

  // ---------- what a clean bill of health is worth ----------

  /** The doctor command finds nothing to report against the stock registry. */
  ghost predicate Clean(doc: Document) {
    Covers(DoctorProtocols(STOCK), DoctorAdapters(STOCK), doc)
  }

  lemma CleanSurface(doc: Document, ref: string, id: string)
    requires Clean(doc) && ref in doc.providers && id in doc.providers[ref].surfaces
    ensures var s := doc.providers[ref].surfaces[id];
            s.adapter == "" && (s.protocol == "" || s.protocol in DoctorProtocols(STOCK))
  {
    var s := doc.providers[ref].surfaces[id];
    assert s.adapter != "" ==> NamesAdapter(doc, s.adapter);
    assert s.protocol != "" ==> NamesProtocol(doc, s.protocol);
  }

  lemma MatchingIsRegistered(protocol: string, wire: string)
    requires ProtocolMatchesWire(protocol, wire) && protocol in DoctorProtocols(STOCK)
    ensures protocol in HandlersFor(STOCK, wire).0
  {
    assert "openai-compat-chat" !in DoctorProtocols(STOCK);
  }

  /** A target comes from a surface of the provider its entry names. */
  lemma TargetHasSurface(doc: Document, model: string, entry: PoolEntry, wire: string, t: Target) returns (id: string)
    requires TargetOf(doc, model, entry, wire) == Ok(t)
    ensures entry.providerRef in doc.providers && id in doc.providers[entry.providerRef].surfaces
    ensures var s := doc.providers[entry.providerRef].surfaces[id];
            t.protocol == s.protocol && t.adapter == s.adapter
            && (entry.surface == "" ==> s.adapter == "" && ProtocolMatchesWire(s.protocol, wire))
            && (entry.surface != "" ==> id == entry.surface)
  {
    hide ProtocolMatchesWire, Leq, UpstreamModel;
    var surfaces := doc.providers[entry.providerRef].surfaces;
    var s := SurfaceOf(surfaces, entry, wire);
    assert IsSurface(surfaces, entry, wire, s);
    if entry.surface == "" {
      id :| id in surfaces && IsAuto(surfaces, wire, id) && s.value == surfaces[id];
    } else {
      id := entry.surface;
    }
  }

  /** If the doctor reports nothing, a target finds a handler on its wire exactly when its protocol is in the
      stock table for that wire; it always is when the protocol matches the wire, and so for every entry that
      leaves its surface to be picked. */
  lemma CleanCatalogServes(doc: Document, model: string, entry: PoolEntry, wire: string, t: Target)
    requires Clean(doc) && TargetOf(doc, model, entry, wire) == Ok(t)
    ensures Found(STOCK, wire, t) <==> t.protocol in HandlersFor(STOCK, wire).0
    ensures ProtocolMatchesWire(t.protocol, wire) ==> Found(STOCK, wire, t)
    ensures entry.surface == "" ==> Found(STOCK, wire, t)
  {
    hide ProtocolMatchesWire, HandlersFor, DoctorProtocols, Clean, TargetOf;
    var id := TargetHasSurface(doc, model, entry, wire, t);
    CleanSurface(doc, entry.providerRef, id);
    if ProtocolMatchesWire(t.protocol, wire) {
      EmptyMatchesNothing(wire);
      MatchingIsRegistered(t.protocol, wire);
    }
  }

  lemma EmptyMatchesNothing(wire: string)
    ensures !ProtocolMatchesWire("", wire)
  {
  }

  /** The entry leaves its surface to be picked, or names one with a stock handler on this wire. */
  predicate Fits(doc: Document, e: PoolEntry, wire: string) {
    e.surface == "" ||
    (e.providerRef in doc.providers && e.surface in doc.providers[e.providerRef].surfaces &&
     doc.providers[e.providerRef].surfaces[e.surface].protocol in HandlersFor(STOCK, wire).0)
  }

  lemma FitsIffFound(doc: Document, model: string, entry: PoolEntry, wire: string, t: Target)
    requires Clean(doc) && TargetOf(doc, model, entry, wire) == Ok(t)
    ensures Found(STOCK, wire, t) <==> Fits(doc, entry, wire)
  {
    hide ProtocolMatchesWire, HandlersFor, DoctorProtocols, Clean, TargetOf;
    CleanCatalogServes(doc, model, entry, wire, t);
    if entry.surface != "" {
      var id := TargetHasSurface(doc, model, entry, wire, t);
    }
  }

  /** For whole plans: in a clean catalog every target of a plan has a handler exactly when each pool entry it was
      made from leaves its surface to be picked or names one the stock table serves on this wire. */
  lemma CleanPlanServes(
    doc: Document, rr: Counters, model: string, wire: string, hint: string, plan: Plan, rr': Counters)
    requires Clean(doc) && Resolves(doc, rr, model, wire, hint, Ok(plan), rr')
    ensures |Tried(doc, rr, model, wire, hint)| == |plan.targets|
    ensures forall i | 0 <= i < |plan.targets| ::
              Found(STOCK, wire, plan.targets[i]) <==> Fits(doc, Tried(doc, rr, model, wire, hint)[i], wire)
    ensures (forall t | t in plan.targets :: Found(STOCK, wire, t)) <==>
            forall e | e in Tried(doc, rr, model, wire, hint) :: Fits(doc, e, wire)
  {
    hide Clean, Found, Fits, Tried, TargetOf, Resolves;
    PlanTargets(doc, rr, model, wire, hint, plan, rr');
    var es := Tried(doc, rr, model, wire, hint);
    forall i | 0 <= i < |es| ensures Found(STOCK, wire, plan.targets[i]) <==> Fits(doc, es[i], wire) {
      FitsIffFound(doc, model, es[i], wire, plan.targets[i]);
    }
    if forall t | t in plan.targets :: Found(STOCK, wire, t) {
      forall e | e in es ensures Fits(doc, e, wire) {
        var i :| 0 <= i < |es| && es[i] == e;
        assert plan.targets[i] in plan.targets;
      }
    }
    if forall e | e in es :: Fits(doc, e, wire) {
      forall t | t in plan.targets ensures Found(STOCK, wire, t) {
        var i :| 0 <= i < |es| && plan.targets[i] == t;
        assert es[i] in es;
      }
    }
  }

  // ---------- and what it is not ----------

  /** A catalog the doctor passes although its chat model has no handler: the entry names an embeddings surface. */
  const MISWIRED: Document := Document(
    map["p" := Provider("c", map[], "", map["e" := Surface("openai-embeddings", "", "u")], "", "")],
    map["m" := map["chat" := Modality(WIRE_CHAT, "", [PoolEntry("p", "", "e")])]])

  lemma DoctorMissesMiswiring() returns (t: Target)
    ensures Clean(MISWIRED)
    ensures TargetOf(MISWIRED, "m", PoolEntry("p", "", "e"), WIRE_CHAT) == Ok(t) && !Found(STOCK, WIRE_CHAT, t)
  {
    hide Clean, TargetOf, MakeTarget;
    var p := MISWIRED.providers["p"];
    assert p.surfaces["e"].protocol in DoctorProtocols(STOCK);
    OneSurfaceClean("p", p, "e", MISWIRED.models);
    t := ExplicitTarget(MISWIRED, "m", PoolEntry("p", "", "e"), WIRE_CHAT);
    EmbeddingsNotChat();
  }

  lemma EmbeddingsNotChat()
    ensures "openai-embeddings" !in HandlersFor(STOCK, WIRE_CHAT).0
  {
    assert |"openai-embeddings"| == 17 && |"openai-chat-completions"| == 23;
    assert |"anthropic-messages"| == 18 && |"openai-responses"| == 16;
    assert HandlersFor(STOCK, WIRE_CHAT).0 == STOCK.chat;
  }

  lemma OneSurfaceClean(ref: string, p: Provider, id: string, models: map<string, Model>)
    requires p.surfaces.Keys == {id} && p.protocol == "" && p.surfaces[id].adapter == ""
    requires p.surfaces[id].protocol in DoctorProtocols(STOCK)
    ensures Clean(Document(map[ref := p], models))
  {
    hide DoctorProtocols;
  }

  lemma ExplicitTarget(doc: Document, model: string, entry: PoolEntry, wire: string) returns (t: Target)
    requires entry.providerRef in doc.providers && entry.surface != ""
    requires entry.surface in doc.providers[entry.providerRef].surfaces
    ensures TargetOf(doc, model, entry, wire) == Ok(t)
    ensures var s := doc.providers[entry.providerRef].surfaces[entry.surface];
            t.protocol == s.protocol && t.adapter == s.adapter
  {
    hide UpstreamModel, ProtocolMatchesWire;
    var p := doc.providers[entry.providerRef];
    assert IsSurface(p.surfaces, entry, wire, SurfaceOf(p.surfaces, entry, wire));
    t := MakeTarget(model, entry, p, p.surfaces[entry.surface]);
  }

  /** The doctor rejects every catalog that serves transcriptions, although the stock handler for them exists. */
  lemma DoctorRejectsTranscriptions(doc: Document, ref: string, id: string, t: Target)
    requires ref in doc.providers && id in doc.providers[ref].surfaces
    requires doc.providers[ref].surfaces[id].protocol == "openai-transcriptions"
    ensures !Clean(doc)
    ensures t.adapter == "" && t.protocol == "openai-transcriptions" ==> Found(STOCK, WIRE_TRANSCRIPTIONS, t)
  {
    assert NamesProtocol(doc, "openai-transcriptions");
    assert "openai-transcriptions" !in DoctorProtocols(STOCK);
  }

  /** In a catalog whose names are all registered, transcription handlers included, the doctor has nothing to report
      exactly when nothing serves transcriptions. */
  lemma OnlyTranscriptionsMissed(doc: Document)
    requires Covers(DoctorProtocols(STOCK) + STOCK.transcription, DoctorAdapters(STOCK), doc)
    ensures Clean(doc) <==> !NamesProtocol(doc, "openai-transcriptions")
  {
    hide NamesProtocol, NamesAdapter;
    assert STOCK.transcription == {"openai-transcriptions"};
    assert "openai-transcriptions" !in DoctorProtocols(STOCK);
  }
}
