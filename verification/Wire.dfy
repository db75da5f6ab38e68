/** One request through the gateway: checks, resolution, and the walk over the plan's targets (wire/wire.go,
    wire/dispatch.go, upstream/retry.go, catalog/modality.go). */
module Wire {
  import opened Text
  import opened Ingress
  import C = Catalog
  import D = Doctor
  import I = Inject
  import K = Keyring
  import P = Payload
  import R = Relay
  import Scopes

  // ---------- the request ----------

  /** An authenticated request; `body` is absent when it cannot be read or is too large, `boundary` is what the
      media type says about a multipart form. */
  datatype Request = Request(
    verb: string, path: string, header: I.Header, modelQuery: string, boundary: Option<string>, body: Option<Raw>)

  const MODALITY_HEADER := "X-Catalog-Modality"

  /** `validateWireMethod`. */
  predicate MethodAllowed(r: Request, wire: string) {
    if wire == C.WIRE_IMAGES || wire == C.WIRE_SPEECH || wire == C.WIRE_TRANSCRIPTIONS then r.verb == "POST"
    else if wire == C.WIRE_VIDEOS then r.verb == if r.path == "/v1/videos/generations" then "POST" else "GET"
    else true
  }

  /** The model a request names, and the body to send on, if it has one. */
  function ModelAndBody(r: Request, wire: string): Option<(string, Option<Raw>)> {
    if wire == C.WIRE_VIDEOS && r.verb == "GET" then Some((Trim(r.modelQuery), None))
    else if r.body.None? then None
    else if "multipart/" <= R.First(r.header, "Content-Type") then
      match MultipartModel(r.body.value, r.boundary)
      case None => None
      case Some(model) => Some((model, r.body))
    else Some((ReadModel(r.body.value), r.body))
  }

  method ReadIngress(r: Request, wire: string) returns (found: Option<(string, Option<Raw>)>)
    ensures found == ModelAndBody(r, wire)
  {
    hide I.Canonical;
    if wire == C.WIRE_VIDEOS && r.verb == "GET" {
      return Some((Trim(r.modelQuery), None));
    }
    if r.body.None? {
      return None;
    }
    if "multipart/" <= R.First(r.header, "Content-Type") {
      var model := ModelFromMultipart(r.body.value, r.boundary);
      return if model.None? then None else Some((model.value, r.body));
    }
    found := Some((ReadModel(r.body.value), r.body));
  }

  /** `ModalityHintFromRequest`. */
  function ModalityHint(r: Request, wire: string): string {
    if wire == C.WIRE_EMBED then "embed"
    else if wire == C.WIRE_IMAGES || wire == C.WIRE_SPEECH || wire == C.WIRE_TRANSCRIPTIONS || wire == C.WIRE_VIDEOS then ""
    else Trim(R.First(r.header, MODALITY_HEADER))
  }

  /** The client's headers without the gateway's own hint. */
  function OutHeader(r: Request): I.Header {
    r.header - {I.Canonical(MODALITY_HEADER)}
  }

  // ---------- what can happen ----------

  datatype Refusal =
    | Unauthorized
    | MethodNotAllowed
    | ModelRequired
    | Forbidden
    | Unresolved(error: C.ResolveError)
    | CredentialUnavailable
    | RouteNotRegistered
    | UpstreamError

  function StatusOf(why: Refusal): int {
    match why
    case Unauthorized => 401
    case MethodNotAllowed => 405
    case ModelRequired | Unresolved(_) => 400
    case Forbidden => 403
    case CredentialUnavailable | RouteNotRegistered | UpstreamError => 502
  }

  /** Why a request is refused before anything is resolved, if it is. */
  function Gate(r: Request, wire: string, scopes: K.Scopes): Option<Refusal> {
    if !MethodAllowed(r, wire) then Some(MethodNotAllowed)
    else
      match ModelAndBody(r, wire)
      case None => Some(ModelRequired)
      case Some(found) =>
        if found.0 == "" then Some(ModelRequired)
        else if !Scopes.Authorize(scopes, found.0, wire) then Some(Forbidden)
        else None
  }

  /** The client gets a refusal, or the response to one attempt. */
  datatype Reply = Refused(why: Refusal) | Relayed(attempt: nat)

  datatype Answer = Unreachable | Answered(resp: R.Response)

  /** Everything outside: what the store and the upstream say in attempt `i`, and when the client is gone. */
  datatype World = World(
    credential: nat -> Option<P.Material>, answer: nat -> Answer, cancelled: nat -> bool)

  /** Header names come canonical from an HTTP client. */
  ghost predicate Canonical(world: World) {
    forall i: nat :: world.answer(i).Answered? ==> I.CanonicalKeys(world.answer(i).resp.header)
  }

  datatype Outcome = NoCredential | NoRoute | CallFailed | Got(resp: R.Response)

  function OutcomeOf(reg: D.Registry, wire: string, world: World, i: nat, t: C.Target): Outcome {
    if world.credential(i).None? then NoCredential
    else if !D.Found(reg, wire, t) then NoRoute
    else
      match world.answer(i)
      case Unreachable => CallFailed
      case Answered(resp) => Got(resp)
  }

  predicate RetryableStatus(status: int) {
    status == 402 || status == 429 || status == 502 || status == 503 || status == 504
  }

  /** Another pool member may be tried after this. */
  predicate Retryable(o: Outcome) {
    o.Got? ==> RetryableStatus(o.resp.status)
  }

  function OutcomesOf(reg: D.Registry, wire: string, world: World, targets: seq<C.Target>): seq<Outcome> {
    seq(|targets|, i requires 0 <= i < |targets| => OutcomeOf(reg, wire, world, i, targets[i]))
  }

  /** The walk ends at the first outcome it does not advance from, or at the last target. */
  predicate EndsAt(failover: bool, outcomes: seq<Outcome>, last: nat) {
    && last < |outcomes|
    && (last > 0 ==> failover) && (forall i | 0 <= i < last :: Retryable(outcomes[i]))
    && (failover && last < |outcomes| - 1 ==> !Retryable(outcomes[last]))
  }

  function ReplyTo(o: Outcome, attempt: nat): Reply {
    match o
    case NoCredential => Refused(CredentialUnavailable)
    case NoRoute => Refused(RouteNotRegistered)
    case CallFailed => Refused(UpstreamError)
    case Got(_) => Relayed(attempt)
  }

  /** An upstream call as it leaves the gateway. */
  datatype Sent = Sent(target: C.Target, material: P.Material, path: string, body: Option<Raw>, header: I.Header)

  ghost function BodyFor(body: Option<Raw>, t: C.Target): Option<Raw> {
    match body
    case None => None
    case Some(raw) => Some(ForUpstream(raw, t.upstreamModel))
  }

  ghost function SentFor(r: Request, body: Option<Raw>, world: World, targets: seq<C.Target>, i: nat): Sent
    requires i < |targets| && world.credential(i).Some?
  {
    Sent(targets[i], world.credential(i).value, r.path, BodyFor(body, targets[i]), OutHeader(r))
  }

  /** The calls made when the walk ends at `last`: one for each attempt that had a credential and a handler. */
  ghost predicate SentUpTo(
    sent: map<nat, Sent>, r: Request, body: Option<Raw>, world: World, targets: seq<C.Target>,
    outcomes: seq<Outcome>, last: nat)
    requires |outcomes| == |targets|
  {
    && (forall i: nat :: i in sent <==> i < last && i < |targets| && (outcomes[i].CallFailed? || outcomes[i].Got?))
    && (forall i: nat | i in sent :: world.credential(i).Some? && sent[i] == SentFor(r, body, world, targets, i))
  }

  function Profiles(targets: seq<C.Target>): seq<string> {
    seq(|targets|, i requires 0 <= i < |targets| => targets[i].credentialProfile)
  }

  // ---------- the outside as one request sees it ----------

  /** Records what the request does outside: the profiles it asks the store for, the calls it makes, the response
      bodies it holds open, and the target the access log names. */
  class Exchange {
    const world: World
    var lookups: seq<string>
    var sent: map<nat, Sent>
    var open: set<nat>
    var recorded: Option<C.Target>

    ghost predicate Untouched()
      reads this
    {
      lookups == [] && sent == map[] && open == {} && recorded == None
    }

    constructor (world: World)
      ensures this.world == world && Untouched()
    {
      this.world := world;
      lookups, sent, open, recorded := [], map[], {}, None;
    }

    method Record(t: C.Target)
      modifies `recorded
      ensures recorded == Some(t)
    {
      recorded := Some(t);
    }

    method Credential(i: nat, profile: string) returns (m: Option<P.Material>)
      modifies `lookups
      ensures m == world.credential(i) && lookups == old(lookups) + [profile]
    {
      lookups := lookups + [profile];
      m := world.credential(i);
    }

    /** A call may only be made when no earlier response is still open. */
    method Call(i: nat, s: Sent) returns (a: Answer)
      requires i !in sent && open == {}
      modifies `sent, `open
      ensures a == world.answer(i) && sent == old(sent)[i := s]
      ensures open == if a.Answered? then {i} else {}
    {
      sent := sent[i := s];
      a := world.answer(i);
      if a.Answered? {
        open := open + {i};
      }
    }

    method Close(i: nat)
      requires i in open
      modifies `open
      ensures open == old(open) - {i}
    {
      open := open - {i};
    }
  }

  // ---------- the engine ----------

  /** What a walk over a plan did: the reply and the attempt it came from, the profiles asked for, the calls made,
      and the target left in the access log. */
  datatype Walk = Walk(
    reply: Reply, last: nat, lookups: seq<string>, sent: map<nat, Sent>, recorded: Option<C.Target>)

  /** What a walk over a plan does, told without the walk. */
  ghost predicate Served(plan: C.Plan, outcomes: seq<Outcome>, r: Request, body: Option<Raw>, world: World, walk: Walk) {
    && |outcomes| == |plan.targets|
    && EndsAt(plan.strategy == C.FAILOVER, outcomes, walk.last)
    && walk.reply == ReplyTo(outcomes[walk.last], walk.last)
    && walk.lookups == Profiles(plan.targets[..walk.last + 1])
    && walk.recorded == Some(plan.targets[walk.last])
    && SentUpTo(walk.sent, r, body, world, plan.targets, outcomes, walk.last + 1)
  }

  /** What is made of a request that comes with these scopes: the reply and the calls of `walk`, and the counters as
      `rr'`. It is refused before anything is resolved, or on the way to a plan, or its plan is served. */
  ghost predicate Handled(
    doc: C.Document, rr: C.Counters, rr': C.Counters, reg: D.Registry, r: Request, scopes: K.Scopes, wire: string,
    world: World, plan: Option<Result<C.Plan, C.ResolveError>>, walk: Walk)
  {
    match Gate(r, wire, scopes)
    case Some(why) => plan == None && walk.reply == Refused(why) && rr' == rr && Nowhere(walk)
    case None =>
      && ModelAndBody(r, wire).Some? && plan.Some?
      && var (model, body) := ModelAndBody(r, wire).value;
         && C.Resolves(doc, rr, model, wire, ModalityHint(r, wire), plan.value, rr')
         && match plan.value
            case Err(e) => walk.reply == Refused(Unresolved(e)) && Nowhere(walk)
            case Ok(p) => Served(p, OutcomesOf(reg, wire, world, p.targets), r, body, world, walk)
  }

  /** Nothing was asked of the store or sent. */
  ghost predicate Nowhere(walk: Walk) {
    walk.lookups == [] && walk.sent == map[] && walk.recorded == None
  }

  /** What the client sees of a reply: one status line, and nothing of any response but the relayed one, which it gets
      whole unless the upstream breaks off or the client goes away. */
  twostate predicate Delivered(w: R.ResponseWriter, reply: Reply, world: World)
    reads w
  {
    && w.Valid() && w.replies == old(w.replies) + 1
    && match reply
       case Refused(why) => w.status == Some(StatusOf(why)) && w.header == old(w.header) && w.written == old(w.written)
       case Relayed(i) =>
         && world.answer(i).Answered?
         && var resp := world.answer(i).resp;
            && w.status == Some(resp.status)
            && w.header == I.Copied(old(w.header), R.EndToEnd(resp.header))
            && (exists n: nat | n <= |resp.body| :: w.written == old(w.written) + resp.body[..n])
            && (resp.end == R.Eof && w.Room(|old(w.written)| + |resp.body|) && (forall k: nat :: !world.cancelled(k))
                ==> w.written == old(w.written) + resp.body)
  }

  class Engine {
    const catalog: C.Catalog
    const registry: D.Registry

    constructor (catalog: C.Catalog, registry: D.Registry)
      ensures this.catalog == catalog && this.registry == registry
    {
      this.catalog, this.registry := catalog, registry;
    }

    /** `http.Error`; the text of the message is not modelled. */
    method Error(w: R.ResponseWriter, why: Refusal) returns (reply: Reply)
      requires w.status.None?
      modifies w`status, w`replies
      ensures w.status == Some(StatusOf(why)) && w.replies == old(w.replies) + 1 && reply == Refused(why)
    {
      w.WriteHeader(StatusOf(why));
      reply := Refused(why);
    }

    method RequestBody(body: Option<Raw>, upstreamModel: string) returns (out: Option<Raw>)
      requires body == Some(NullText) ==> upstreamModel == ""
      ensures out == match body case None => None case Some(raw) => Some(ForUpstream(raw, upstreamModel))
    {
      hide ForUpstream;
      if body.None? {
        return None;
      }
      var raw := RewriteModelBody(body.value, upstreamModel);
      out := Some(raw);
    }

    /** An attempt came to nothing: on to the next target, if there is one to go on to, or the refusal. */
    method Fail(w: R.ResponseWriter, more: bool, why: Refusal) returns (reply: Option<Reply>)
      requires w.status.None?
      modifies w`status, w`replies
      ensures more ==> reply == None && unchanged(w)
      ensures !more ==>
                reply == Some(Refused(why)) && w.status == Some(StatusOf(why)) && w.replies == old(w.replies) + 1
    {
      if more {
        return None;
      }
      var refused := Error(w, why);
      reply := Some(refused);
    }

    /** The call of one attempt, and what becomes of its answer. */
    method Forward(w: R.ResponseWriter, x: Exchange, i: nat, s: Sent, more: bool) returns (reply: Option<Reply>)
      requires w.Valid() && w.status.None? && x.open == {} && i !in x.sent && Canonical(x.world)
      modifies w, x`sent, x`open
      ensures x.open == {} && x.sent == old(x.sent)[i := s]
      ensures var a := x.world.answer(i);
              var o := if a.Unreachable? then CallFailed else Got(a.resp);
              if more && Retryable(o) then reply == None && unchanged(w)
              else reply == Some(ReplyTo(o, i)) && Delivered(w, reply.value, x.world)
    {
      hide I.Canonical, I.Copied, R.EndToEnd, StatusOf;
      var answer := x.Call(i, s);
      if answer.Unreachable? {
        reply := Fail(w, more, UpstreamError);
        return;
      }
      if more && RetryableStatus(answer.resp.status) {
        x.Close(i);
        return None;
      }
      var _ := R.CopyResponse(w, answer.resp, x.world.cancelled);
      x.Close(i);
      reply := Some(Relayed(i));
    }

    /** One round of the loop of `handleWire`: nothing if the next target is to be tried. */
    method TryTarget(w: R.ResponseWriter, x: Exchange, r: Request, body: Option<Raw>, wire: string, plan: C.Plan, i: nat)
      returns (reply: Option<Reply>)
      requires w.Valid() && w.status.None? && x.open == {} && i !in x.sent && Canonical(x.world)
      requires i < |plan.targets|
      requires body == Some(NullText) ==> plan.targets[i].upstreamModel == ""
      modifies w, x
      ensures x.open == {}
      ensures x.lookups == old(x.lookups) + [plan.targets[i].credentialProfile] && x.recorded == Some(plan.targets[i])
      ensures var o := OutcomeOf(registry, wire, x.world, i, plan.targets[i]);
              && (if o.CallFailed? || o.Got?
                  then x.sent == old(x.sent)[i := SentFor(r, body, x.world, plan.targets, i)]
                  else x.sent == old(x.sent))
              && (if plan.strategy == C.FAILOVER && Retryable(o) && i < |plan.targets| - 1
                  then reply == None && unchanged(w)
                  else reply == Some(ReplyTo(o, i)) && Delivered(w, reply.value, x.world))
    {
      hide D.Found, I.Canonical, I.Copied, R.EndToEnd, ForUpstream, OutHeader, StatusOf;
      var target := plan.targets[i];
      var more := plan.strategy == C.FAILOVER && i < |plan.targets| - 1;
      x.Record(target);
      var material := x.Credential(i, target.credentialProfile);
      if material.None? {
        reply := Fail(w, more, CredentialUnavailable);
        return;
      }
      var out := RequestBody(body, target.upstreamModel);
      if !D.Found(registry, wire, target) {
        reply := Fail(w, more, RouteNotRegistered);
        return;
      }
      reply := Forward(w, x, i, Sent(target, material.value, r.path, out, OutHeader(r)), more);
    }

    /** The loop of `handleWire`; it never falls off the end of the plan without a reply. */
    method TryTargets(w: R.ResponseWriter, x: Exchange, r: Request, body: Option<Raw>, wire: string, plan: C.Plan)
      returns (reply: Reply, last: nat)
      requires w.Valid() && w.status.None? && x.Untouched() && Canonical(x.world)
      requires plan.targets != []
      requires body == Some(NullText) ==> forall t | t in plan.targets :: t.upstreamModel == ""
      modifies w, x
      ensures Delivered(w, reply, x.world) && x.open == {}
      ensures Served(plan, OutcomesOf(registry, wire, x.world, plan.targets), r, body, x.world,
                     Walk(reply, last, x.lookups, x.sent, x.recorded))
    {
      hide OutcomeOf, Retryable, Canonical, SentFor, ReplyTo, Profiles, SentUpTo;
      NothingYet(r, body, x.world, plan.targets, OutcomesOf(registry, wire, x.world, plan.targets));
      ghost var outcomes := OutcomesOf(registry, wire, x.world, plan.targets);
      last := 0;
      while true
        invariant last < |plan.targets|
        invariant unchanged(w) && x.open == {}
        invariant last > 0 ==> plan.strategy == C.FAILOVER
        invariant forall j | 0 <= j < last :: Retryable(outcomes[j])
        invariant x.lookups == Profiles(plan.targets[..last])
        invariant SentUpTo(x.sent, r, body, x.world, plan.targets, outcomes, last)
        decreases |plan.targets| - last
      {
        ProfilesStep(plan.targets, last);
        SentStep(x.sent, r, body, x.world, plan.targets, outcomes, last);
        CredentialKnown(registry, wire, x.world, last, plan.targets[last]);
        var done := TryTarget(w, x, r, body, wire, plan, last);
        if done.Some? {
          return done.value, last;
        }
        last := last + 1;
      }
    }

    /** `handleWire`: exactly one reply to every request. A refused request touches nothing outside; a plan is
        resolved only for a model and wire the scopes authorize, and then served. */
    method HandleWire(w: R.ResponseWriter, x: Exchange, r: Request, scopes: K.Scopes, wire: string)
      returns (reply: Reply, ghost plan: Option<Result<C.Plan, C.ResolveError>>, ghost last: nat)
      requires w.Valid() && w.status.None? && x.Untouched() && Canonical(x.world)
      modifies w, x, catalog
      ensures Delivered(w, reply, x.world) && x.open == {}
      ensures plan == None <==> Gate(r, wire, scopes).Some?
      ensures plan == None ==> reply == Refused(Gate(r, wire, scopes).value) && catalog.rr == old(catalog.rr)
      ensures plan.Some? ==>
                var model := ModelAndBody(r, wire).value.0;
                C.Resolves(catalog.doc, old(catalog.rr), model, wire, ModalityHint(r, wire), plan.value, catalog.rr)
      ensures plan.Some? && plan.value.Err? ==> reply == Refused(Unresolved(plan.value.error))
      ensures plan.Some? && plan.value.Ok? ==>
                var p, body := plan.value.value, ModelAndBody(r, wire).value.1;
                Served(p, OutcomesOf(registry, wire, x.world, p.targets), r, body, x.world,
                     Walk(reply, last, x.lookups, x.sent, x.recorded))
      ensures plan == None || plan.value.Err? ==> x.Untouched()
      ensures Handled(catalog.doc, old(catalog.rr), catalog.rr, registry, r, scopes, wire, x.world, plan,
                      Walk(reply, last, x.lookups, x.sent, x.recorded))
      ensures reply == Refused(MethodNotAllowed) ==> w.status == Some(405)
      ensures reply == Refused(ModelRequired) || (reply.Refused? && reply.why.Unresolved?) ==> w.status == Some(400)
      ensures reply == Refused(Forbidden) ==> w.status == Some(403)
      ensures reply in {Refused(CredentialUnavailable), Refused(RouteNotRegistered), Refused(UpstreamError)} ==>
                w.status == Some(502)
    {
      Statuses();
      hide C.Resolves, R.EndToEnd, I.Copied, Scopes.Authorize, OutcomesOf, Served, MethodAllowed, ModelAndBody;
      hide ModalityHint, Canonical, StatusOf;
      plan, last := None, 0;
      if !MethodAllowed(r, wire) {
        reply := Error(w, MethodNotAllowed);
        return;
      }
      var found := ReadIngress(r, wire);
      if found.None? || found.value.0 == "" {
        reply := Error(w, ModelRequired);
        return;
      }
      var (model, body) := found.value;
      if !Scopes.Authorize(scopes, model, wire) {
        reply := Error(w, Forbidden);
        return;
      }
      var resolved := catalog.ResolveWithModality(model, wire, ModalityHint(r, wire));
      plan := Some(resolved);
      if resolved.Err? {
        reply := Error(w, Unresolved(resolved.error));
        return;
      }
      PlanNotEmpty(catalog.doc, old(catalog.rr), model, wire, ModalityHint(r, wire), resolved.value, catalog.rr);
      NullNamesNothing(r, wire);
      reply, last := TryTargets(w, x, r, body, wire, resolved.value);
    }

    /** `withAuth`: nothing outside the gateway happens unless the bearer secret verifies, as that key's principal
        and for a model and wire its scopes authorize. */
    method WithAuth(w: R.ResponseWriter, x: Exchange, r: Request, keys: K.SQLStore, now: int, wire: string)
      returns (reply: Reply, ghost plan: Option<Result<C.Plan, C.ResolveError>>, ghost last: nat)
      requires w.Valid() && w.status.None? && x.Untouched() && Canonical(x.world)
      modifies w, x, catalog
      ensures Delivered(w, reply, x.world) && x.open == {}
      ensures var p := if Bearer(r.header).None? then None else K.Verified(keys.table.rows, Bearer(r.header).value, now);
              if p.None? then reply == Refused(Unauthorized) && w.status == Some(401)
              else Handled(catalog.doc, old(catalog.rr), catalog.rr, registry, r, p.value.scopes, wire, x.world, plan,
                           Walk(reply, last, x.lookups, x.sent, x.recorded))
      ensures !x.Untouched() || catalog.rr != old(catalog.rr) ==>
                && Bearer(r.header).Some? && ModelAndBody(r, wire).Some?
                && exists p :: K.Verified(keys.table.rows, Bearer(r.header).value, now) == Some(p)
                               && Scopes.Authorize(p.scopes, ModelAndBody(r, wire).value.0, wire)
      ensures reply == Refused(Unauthorized) <==>
                Bearer(r.header).None? || K.Verified(keys.table.rows, Bearer(r.header).value, now) == None
    {
      hide C.Resolves, R.EndToEnd, I.Copied, Scopes.Authorize, OutcomesOf, EndsAt, SentUpTo, MethodAllowed;
      hide ModelAndBody, ModalityHint, Canonical, K.Verified, Bearer, StatusOf;
      Statuses();
      plan, last := None, 0;
      var secret := Bearer(r.header);
      if secret.None? {
        reply := Error(w, Unauthorized);
        return;
      }
      var p := keys.Verify(secret.value, now);
      if p.None? {
        reply := Error(w, Unauthorized);
        return;
      }
      reply, plan, last := HandleWire(w, x, r, p.value.scopes, wire);
    }
  }

  lemma Statuses()
    ensures StatusOf(Unauthorized) == 401 && StatusOf(MethodNotAllowed) == 405 && StatusOf(ModelRequired) == 400
    ensures StatusOf(Forbidden) == 403 && forall e :: StatusOf(Unresolved(e)) == 400
    ensures StatusOf(CredentialUnavailable) == StatusOf(RouteNotRegistered) == StatusOf(UpstreamError) == 502
  {
  }

  /** The secret of an `Authorization: Bearer` header. */
  function Bearer(h: I.Header): Option<string> {
    var value := R.First(h, "Authorization");
    if !("Bearer " <= value) || Trim(value[7..]) == "" then None else Some(Trim(value[7..]))
  }

  lemma PlanNotEmpty(
    doc: C.Document, rr: C.Counters, model: string, wire: string, hint: string, plan: C.Plan, rr': C.Counters)
    requires C.Resolves(doc, rr, model, wire, hint, Ok(plan), rr')
    ensures plan.targets != []
  {
    hide C.Resolves, C.Picked, C.Candidates, C.TargetOf;
    C.PlanShape(doc, rr, model, wire, hint, plan, rr');
  }

  lemma NullNamesNothing(r: Request, wire: string)
    ensures var found := ModelAndBody(r, wire);
            found.Some? && found.value.1 == Some(NullText) ==> found.value.0 == ""
  {
    hide I.Canonical, Trim;
  }

  lemma NothingYet(r: Request, body: Option<Raw>, world: World, targets: seq<C.Target>, outcomes: seq<Outcome>)
    requires |outcomes| == |targets|
    ensures Profiles(targets[..0]) == [] && SentUpTo(map[], r, body, world, targets, outcomes, 0)
  {
  }

  lemma ProfilesStep(targets: seq<C.Target>, i: nat)
    requires i < |targets|
    ensures Profiles(targets[..i + 1]) == Profiles(targets[..i]) + [targets[i].credentialProfile]
  {
  }

  lemma SentStep(
    sent: map<nat, Sent>, r: Request, body: Option<Raw>, world: World, targets: seq<C.Target>,
    outcomes: seq<Outcome>, i: nat)
    requires i < |targets| == |outcomes| && SentUpTo(sent, r, body, world, targets, outcomes, i)
    ensures i !in sent
    ensures if outcomes[i].CallFailed? || outcomes[i].Got?
            then world.credential(i).Some? ==>
                   SentUpTo(sent[i := SentFor(r, body, world, targets, i)], r, body, world, targets, outcomes, i + 1)
            else SentUpTo(sent, r, body, world, targets, outcomes, i + 1)
  {
    hide SentFor;
  }

  lemma CredentialKnown(reg: D.Registry, wire: string, world: World, i: nat, t: C.Target)
    ensures var o := OutcomeOf(reg, wire, world, i, t); o.CallFailed? || o.Got? ==> world.credential(i).Some?
  {
  }

  // ---------- what the client may rely on ----------

  /** Where the walk ends is fixed by the outcomes. */
  lemma EndIsUnique(failover: bool, outcomes: seq<Outcome>, a: nat, b: nat)
    requires EndsAt(failover, outcomes, a) && EndsAt(failover, outcomes, b)
    ensures a == b
  {
    hide Retryable;
  }

  /** Without failover only the first target is ever tried. */
  lemma OneAttemptWithoutFailover(
    plan: C.Plan, outcomes: seq<Outcome>, r: Request, body: Option<Raw>, world: World, walk: Walk)
    requires Served(plan, outcomes, r, body, world, walk)
    requires plan.strategy != C.FAILOVER
    ensures walk.last == 0 && walk.lookups == [plan.targets[0].credentialProfile] && walk.sent.Keys <= {0}
  {
    hide SentFor;
  }

  /** With failover, the client gets a final answer exactly when some pool member has one to give, and then it is
      the first such member's; no credential error, missing handler, unreachable or overloaded member before it
      shows. Otherwise every member was tried, and the last one's trouble is what the client sees. */
  lemma FirstHealthyMemberServes(
    plan: C.Plan, outcomes: seq<Outcome>, r: Request, body: Option<Raw>, world: World, walk: Walk)
    requires Served(plan, outcomes, r, body, world, walk)
    requires plan.strategy == C.FAILOVER
    ensures !Retryable(outcomes[walk.last]) <==> exists i | 0 <= i < |outcomes| :: !Retryable(outcomes[i])
    ensures !Retryable(outcomes[walk.last]) ==>
              && walk.reply == Relayed(walk.last) && outcomes[walk.last].Got?
              && forall i | 0 <= i < |outcomes| && !Retryable(outcomes[i]) :: walk.last <= i
    ensures Retryable(outcomes[walk.last]) ==> walk.last == |outcomes| - 1 && walk.lookups == Profiles(plan.targets)
  {
    hide SentFor;
    assert forall i | 0 <= i < walk.last :: Retryable(outcomes[i]);
    assert walk.last == |outcomes| - 1 ==> plan.targets[..walk.last + 1] == plan.targets;
  }

  /** Which attempts are followed by another: in a failover plan, one before the last pool member is exactly when it
      made no call, for want of a credential or a handler, or its call had no answer, or the answer's status is one of
      402, 429, 502, 503 and 504. */
  lemma MovesOnIff(
    reg: D.Registry, wire: string, plan: C.Plan, r: Request, body: Option<Raw>, world: World, walk: Walk, i: nat)
    requires Served(plan, OutcomesOf(reg, wire, world, plan.targets), r, body, world, walk)
    requires plan.strategy == "failover" && i <= walk.last && i + 1 < |plan.targets|
    ensures i in walk.sent <==> world.credential(i).Some? && D.Found(reg, wire, plan.targets[i])
    ensures i < walk.last <==>
            || i !in walk.sent
            || world.answer(i).Unreachable?
            || world.answer(i).resp.status in {402, 429, 502, 503, 504}
  {
    hide SentFor, D.Found;
    var outcomes := OutcomesOf(reg, wire, world, plan.targets);
    assert outcomes[i] == OutcomeOf(reg, wire, world, i, plan.targets[i]);
    assert i < walk.last ==> Retryable(outcomes[i]);
  }

  /** The attempt that ends a walk decides the reply, whatever the strategy; without failover it is the first. */
  lemma LastDecides(
    reg: D.Registry, wire: string, plan: C.Plan, r: Request, body: Option<Raw>, world: World, walk: Walk)
    requires Served(plan, OutcomesOf(reg, wire, world, plan.targets), r, body, world, walk)
    ensures walk.last < |plan.targets| && (plan.strategy != "failover" ==> walk.last == 0)
    ensures walk.recorded == Some(plan.targets[walk.last])
    ensures walk.reply ==
            if world.credential(walk.last).None? then Refused(CredentialUnavailable)
            else if !D.Found(reg, wire, plan.targets[walk.last]) then Refused(RouteNotRegistered)
            else if world.answer(walk.last).Unreachable? then Refused(UpstreamError)
            else Relayed(walk.last)
  {
    hide SentFor, D.Found, SentUpTo, Profiles;
    var outcomes := OutcomesOf(reg, wire, world, plan.targets);
    assert outcomes[walk.last] == OutcomeOf(reg, wire, world, walk.last, plan.targets[walk.last]);
  }

  /** A member that was or could be called, and answers with a status that ends the walk. */
  predicate Final(reg: D.Registry, wire: string, world: World, targets: seq<C.Target>, i: nat) {
    && i < |targets| && world.credential(i).Some? && D.Found(reg, wire, targets[i])
    && world.answer(i).Answered? && world.answer(i).resp.status !in {402, 429, 502, 503, 504}
  }

  /** In a failover plan, the client is relayed a status outside those five exactly when some member would give one, and
      then it is the first such member's answer. Otherwise the last member decides: its answer, or 502 by what it
      lacked. */
  lemma FirstFinalServes(
    reg: D.Registry, wire: string, plan: C.Plan, r: Request, body: Option<Raw>, world: World, walk: Walk)
    requires Served(plan, OutcomesOf(reg, wire, world, plan.targets), r, body, world, walk)
    requires plan.strategy == "failover"
    ensures (exists i: nat :: Final(reg, wire, world, plan.targets, i)) <==> Final(reg, wire, world, plan.targets, walk.last)
    ensures Final(reg, wire, world, plan.targets, walk.last) ==>
              walk.reply == Relayed(walk.last) && forall i: nat | i < walk.last :: !Final(reg, wire, world, plan.targets, i)
    ensures !Final(reg, wire, world, plan.targets, walk.last) ==>
              && walk.last == |plan.targets| - 1
              && walk.reply == (if world.credential(walk.last).None? then Refused(CredentialUnavailable)
                                else if !D.Found(reg, wire, plan.targets[walk.last]) then Refused(RouteNotRegistered)
                                else if world.answer(walk.last).Unreachable? then Refused(UpstreamError)
                                else Relayed(walk.last))
  {
    hide SentFor, D.Found, SentUpTo, Profiles;
    var outcomes := OutcomesOf(reg, wire, world, plan.targets);
    forall i: nat | i < |plan.targets| ensures !Retryable(outcomes[i]) <==> Final(reg, wire, world, plan.targets, i) {
      assert outcomes[i] == OutcomeOf(reg, wire, world, i, plan.targets[i]);
    }
    assert forall i | 0 <= i < walk.last :: Retryable(outcomes[i]);
  }

  /** With the stock handlers, which attempts make their call: those that have a credential and a target without an
      adapter whose protocol is the wire's own, or any of the three text protocols on a text wire. */
  lemma StockCalls(wire: string, plan: C.Plan, r: Request, body: Option<Raw>, world: World, walk: Walk, i: nat)
    requires Served(plan, OutcomesOf(D.STOCK, wire, world, plan.targets), r, body, world, walk) && i <= walk.last
    requires wire in C.STOCK_PROTOCOLS
    ensures i < |plan.targets|
    ensures var t := plan.targets[i];
            i in walk.sent <==>
            && world.credential(i).Some? && t.adapter == ""
            && if wire in {"openai-chat-completions", "anthropic-messages", "openai-responses"}
               then t.protocol in {"openai-chat-completions", "anthropic-messages", "openai-responses"}
               else t.protocol == C.STOCK_PROTOCOLS[wire]
  {
    hide SentFor, D.Found, D.STOCK;
    WireLengths();
    D.StockServes(wire, plan.targets[i]);
    var outcomes := OutcomesOf(D.STOCK, wire, world, plan.targets);
    assert outcomes[i] == OutcomeOf(D.STOCK, wire, world, i, plan.targets[i]);
  }

  /** With a clean doctor's report and the stock handlers, an attempt makes its call exactly when it has a credential
      and its pool entry leaves its surface to be picked or names one that serves this wire; and the client is
      answered `route not registered` exactly when that is what the last attempt lacked. */
  lemma CleanCatalogRouted(
    doc: C.Document, rr: C.Counters, model: string, hint: string, rr': C.Counters, wire: string,
    plan: C.Plan, r: Request, body: Option<Raw>, world: World, walk: Walk)
    requires D.Clean(doc) && C.Resolves(doc, rr, model, wire, hint, Ok(plan), rr')
    requires Served(plan, OutcomesOf(D.STOCK, wire, world, plan.targets), r, body, world, walk)
    ensures var es := C.Tried(doc, rr, model, wire, hint);
            && walk.last < |es| == |plan.targets|
            && (forall i: nat | i <= walk.last ::
                  i in walk.sent <==> world.credential(i).Some? && D.Fits(doc, es[i], wire))
            && (walk.reply == Refused(RouteNotRegistered) <==>
                  world.credential(walk.last).Some? && !D.Fits(doc, es[walk.last], wire))
  {
    hide D.Clean, D.Fits, C.Tried, C.Resolves, D.Found, SentFor;
    D.CleanPlanServes(doc, rr, model, wire, hint, plan, rr');
  }

  // ---------- what a request is let through on ----------

  /** Which requests come to a plan: the method is one the wire takes, a model is named, and some scope lets it through.
      Generating an image, speech, a transcription or a video takes a POST, asking after a video a GET. */
  lemma GateIs(r: Request, wire: string, scopes: K.Scopes)
    ensures Gate(r, wire, scopes) == Some(MethodNotAllowed) <==>
            || (wire in {"openai-images-generations", "openai-audio-speech", "openai-audio-transcriptions"} && r.verb != "POST")
            || (wire == "openai-videos" && r.verb != if r.path == "/v1/videos/generations" then "POST" else "GET")
    ensures Gate(r, wire, scopes) != Some(MethodNotAllowed) ==>
              var named := ModelAndBody(r, wire).Some? && ModelAndBody(r, wire).value.0 != "";
              Gate(r, wire, scopes) ==
              if !named then Some(ModelRequired)
              else if !Scopes.Authorize(scopes, ModelAndBody(r, wire).value.0, wire) then Some(Forbidden)
              else None
  {
    hide ModelAndBody, Scopes.Authorize;
    assert |C.WIRE_IMAGES| == 25 && |C.WIRE_SPEECH| == 19 && |C.WIRE_TRANSCRIPTIONS| == 27 && |C.WIRE_VIDEOS| == 13;
  }

  /** The last member that names a model ignoring case, and whose value is a string. */
  predicate NamesLast(members: seq<Member>, k: int) {
    && 0 <= k < |members| && Lower(members[k].0) == "model" && members[k].1.JString?
    && forall j | k < j < |members| :: Lower(members[j].0) != "model" || !members[j].1.JString?
  }

  lemma {:induction false} FieldIsLast(members: seq<Member>)
    ensures forall k | NamesLast(members, k) :: ModelField(members) == members[k].1.text
    ensures (forall j | 0 <= j < |members| :: Lower(members[j].0) != "model" || !members[j].1.JString?) ==>
              ModelField(members) == ""
  {
    hide Lower;
    if members != [] {
      var n := |members| - 1;
      FieldIsLast(members[..n]);
      forall k | NamesLast(members, k) ensures ModelField(members) == members[k].1.text {
        if k < n {
          assert !NamesModel(members[n].0) || !members[n].1.JString?;
          assert NamesLast(members[..n], k);
        }
      }
    }
  }

  /** The first part of a form that is named `model`. */
  predicate FirstPart(parts: seq<Part>, k: int) {
    0 <= k < |parts| && parts[k].form == "model" && forall j | 0 <= j < k :: parts[j].form != "model"
  }

  lemma {:induction false} PartIsFirst(parts: seq<Part>, complete: bool)
    ensures forall k | FirstPart(parts, k) ::
              FormModel(parts, complete) ==
              if parts[k].content.None? then None else Some(Trim(parts[k].content.value))
    ensures (forall j | 0 <= j < |parts| :: parts[j].form != "model") ==>
              FormModel(parts, complete) == if complete then Some("") else None
  {
    hide Trim;
    if parts != [] && parts[0].form != "model" {
      PartIsFirst(parts[1..], complete);
      forall k | FirstPart(parts, k)
        ensures k > 0 && FirstPart(parts[1..], k - 1) && parts[1..][k - 1] == parts[k]
      {
      }
    }
  }

  /** Whose word the gateway takes for the model: a query parameter when a video is asked after. */
  lemma QueryModel(r: Request, wire: string)
    requires wire == "openai-videos" && r.verb == "GET"
    ensures ModelAndBody(r, wire) == Some((Trim(r.modelQuery), None))
  {
    hide Trim, R.First, ReadModel, MultipartModel;
  }

  /** Otherwise, unless the body is a form, the last `model` string of its JSON object, however that name is cased; no
      other body names one, and no request without a body gets through. */
  lemma JsonModel(r: Request, wire: string)
    requires !(wire == "openai-videos" && r.verb == "GET") && !("multipart/" <= R.First(r.header, "Content-Type"))
    ensures ModelAndBody(r, wire).Some? <==> r.body.Some?
    ensures r.body.Some? ==> ModelAndBody(r, wire).value.1 == r.body
    ensures r.body.Some? && r.body.value.Object? ==>
              var model, members := ModelAndBody(r, wire).value.0, r.body.value.members;
              && (forall k | NamesLast(members, k) :: model == Trim(members[k].1.text))
              && (model != "" ==> exists k :: NamesLast(members, k))
    ensures r.body.Some? && !r.body.value.Object? ==> ModelAndBody(r, wire).value.0 == ""
  {
    hide Trim, R.First, NamesLast, Lower;
    TrimEmpty();
    if r.body.Some? && r.body.value.Object? {
      FieldIsLast(r.body.value.members);
      FieldHasLast(r.body.value.members);
    }
  }

  /** And of a form the first part named `model`, if it can be read and the form does not give out before it. */
  lemma FormModelIs(r: Request, wire: string)
    requires !(wire == "openai-videos" && r.verb == "GET") && "multipart/" <= R.First(r.header, "Content-Type")
    ensures ModelAndBody(r, wire).Some? ==> ModelAndBody(r, wire).value.1 == r.body != None && r.boundary != None
    ensures r.body.Some? && r.boundary == Some("") ==> ModelAndBody(r, wire) == Some(("", r.body))
    ensures r.body.Some? && r.boundary.Some? && r.boundary.value != "" ==>
              match r.body.value
              case Form(parts, complete) =>
                && (forall k | FirstPart(parts, k) ::
                      ModelAndBody(r, wire) ==
                      if parts[k].content.None? then None else Some((Trim(parts[k].content.value), r.body)))
                && ((forall j | 0 <= j < |parts| :: parts[j].form != "model") ==>
                      ModelAndBody(r, wire) == if complete then Some(("", r.body)) else None)
              case _ => ModelAndBody(r, wire) == None
  {
    hide Trim, R.First, FirstPart, ReadModel;
    if r.body.Some? && r.body.value.Form? {
      PartIsFirst(r.body.value.parts, r.body.value.complete);
    }
  }

  lemma {:induction false} FieldHasLast(members: seq<Member>)
    ensures ModelField(members) != "" ==> exists k :: NamesLast(members, k)
  {
    hide Lower;
    if members != [] {
      var n := |members| - 1;
      if Lower(members[n].0) == "model" && members[n].1.JString? {
        assert NamesLast(members, n);
      } else {
        FieldHasLast(members[..n]);
        if k :| NamesLast(members[..n], k) {
          assert NamesLast(members, k);
        }
      }
    }
  }

  /** The hint a plan is resolved with: embeddings always ask for `embed`, the media wires for nothing, and the text wires
      for what the client's header says. */
  lemma HintIs(r: Request, wire: string)
    ensures wire == "openai-embeddings" ==> ModalityHint(r, wire) == "embed"
    ensures wire in {"openai-images-generations", "openai-audio-speech", "openai-audio-transcriptions", "openai-videos"} ==>
              ModalityHint(r, wire) == ""
    ensures wire in {"openai-chat-completions", "anthropic-messages", "openai-responses"} ==>
              ModalityHint(r, wire) == Trim(FirstValue(r.header, "X-Catalog-Modality"))
  {
    hide Trim, I.Canonical;
    HintName();
    WireLengths();
  }

  lemma WireLengths()
    ensures |C.WIRE_CHAT| == 23 && |C.WIRE_MESSAGES| == 18 && |C.WIRE_EMBED| == 17 && |C.WIRE_RESPONSES| == 16
    ensures |C.WIRE_IMAGES| == 25 && |C.WIRE_SPEECH| == 19 && |C.WIRE_TRANSCRIPTIONS| == 27 && |C.WIRE_VIDEOS| == 13
  {
  }

  function FirstValue(h: I.Header, key: string): string {
    if key in h && h[key] != [] then h[key][0] else ""
  }

  /** Which requests bring a secret: those whose first `Authorization` value is `Bearer ` and something that is not
      blank, which is then the secret, trimmed. */
  lemma BearerIs(h: I.Header, secret: string)
    ensures Bearer(h) == Some(secret) <==>
            secret != "" && exists s: string :: FirstValue(h, "Authorization") == "Bearer " + s && secret == Trim(s)
  {
    hide Trim, I.Canonical;
    I.AuthorizationName();
    var value := FirstValue(h, "Authorization");
    if "Bearer " <= value {
      assert value == "Bearer " + value[7..];
    }
    forall s: string | value == "Bearer " + s ensures value[7..] == s {
    }
  }

  // ---------- what the upstream gets ----------

  lemma ModelIsTrimmed(r: Request, wire: string)
    requires ModelAndBody(r, wire).Some?
    ensures var model := ModelAndBody(r, wire).value.0; Trim(model) == model
  {
    hide I.Canonical, Trim;
    TrimEmpty();
    forall s ensures Trim(Trim(s)) == Trim(s) { TrimIdempotent(s); }
    if ModelAndBody(r, wire).value.1.Some? {
      FormModelTrimmed(r.body.value, r.boundary);
    }
  }

  lemma FormModelTrimmed(raw: Raw, boundary: Option<string>)
    ensures MultipartModel(raw, boundary).Some? ==>
              var model := MultipartModel(raw, boundary).value; Trim(model) == model
  {
    TrimEmpty();
    if raw.Form? {
      FirstPartTrimmed(raw.parts, raw.complete);
    }
  }

  lemma {:induction false} FirstPartTrimmed(parts: seq<Part>, complete: bool)
    ensures FormModel(parts, complete).Some? ==> var model := FormModel(parts, complete).value; Trim(model) == model
  {
    TrimEmpty();
    hide Trim;
    if parts != [] {
      if parts[0].form == MODEL {
        if parts[0].content.Some? { TrimIdempotent(parts[0].content.value); }
      } else {
        FirstPartTrimmed(parts[1..], complete);
      }
    }
  }

  /** Every target of a plan has an upstream model: the entry's, or else the client's. */
  lemma TargetsAreNamed(
    doc: C.Document, rr: C.Counters, model: string, wire: string, hint: string, plan: C.Plan, rr': C.Counters)
    requires C.Resolves(doc, rr, model, wire, hint, Ok(plan), rr') && model != "" && Trim(model) == model
    ensures forall t | t in plan.targets ::
              t.model == model && t.upstreamModel != "" && Trim(t.upstreamModel) == t.upstreamModel
  {
    hide C.Resolves, C.Picked, C.Candidates, Trim, C.TargetOf;
    C.PlanShape(doc, rr, model, wire, hint, plan, rr');
    var name := C.Picked(C.Candidates(doc.models[model], wire), hint).value;
    var pool := doc.models[model][name].providers;
    forall t | t in plan.targets
      ensures t.model == model && t.upstreamModel != "" && Trim(t.upstreamModel) == t.upstreamModel
    {
      var i :| 0 <= i < |plan.targets| && plan.targets[i] == t;
      var k := if plan.strategy == C.FAILOVER then i else C.Counter(rr, C.PoolKey(name, wire)) % |pool|;
      TargetIsNamed(doc, model, pool[k], wire, t);
    }
  }

  lemma TargetIsNamed(doc: C.Document, model: string, entry: C.PoolEntry, wire: string, t: C.Target)
    requires C.TargetOf(doc, model, entry, wire) == Ok(t) && model != "" && Trim(model) == model
    ensures t.model == model && t.upstreamModel != "" && Trim(t.upstreamModel) == t.upstreamModel
  {
    hide Trim, C.SurfaceOf;
    TrimIdempotent(entry.model);
  }

  /** Each attempt sends the client's own object with `model` alone replaced, by its pool entry's own name, or by the
      client's exactly when the entry has none: what an earlier attempt sent leaves no trace in it. */
  lemma EachAttemptReplacesOnlyModel(
    doc: C.Document, rr: C.Counters, rr': C.Counters, wire: string, plan: C.Plan, outcomes: seq<Outcome>,
    r: Request, world: World, walk: Walk, i: nat)
    requires ModelAndBody(r, wire).Some? && ModelAndBody(r, wire).value.0 != ""
    requires var (model, body) := ModelAndBody(r, wire).value;
             && C.Resolves(doc, rr, model, wire, ModalityHint(r, wire), Ok(plan), rr')
             && Served(plan, outcomes, r, body, world, walk)
             && body.Some? && body.value.Object?
    requires i in walk.sent
    ensures i < |C.Tried(doc, rr, ModelAndBody(r, wire).value.0, wire, ModalityHint(r, wire))|
    ensures walk.sent[i].body.Some? && walk.sent[i].body.value.Object?
    ensures var (model, body) := ModelAndBody(r, wire).value;
            var e := C.Tried(doc, rr, model, wire, ModalityHint(r, wire))[i];
            var out, given := walk.sent[i].body.value.members, body.value.members;
            && AsMap(out) == AsMap(given)["model" := JString(if Blank(e.model) then model else Trim(e.model))]
            && forall a, b | 0 <= a < b < |out| :: out[a].0 != out[b].0
  {
    hide C.Resolves, C.Tried, ModelAndBody, ModalityHint, AsMap, ForUpstream, Trim, EndsAt;
    var (model, body) := ModelAndBody(r, wire).value;
    ModelIsTrimmed(r, wire);
    TargetsAreNamed(doc, rr, model, wire, ModalityHint(r, wire), plan, rr');
    C.TargetsFromEntries(doc, rr, model, wire, ModalityHint(r, wire), plan, rr', i);
    var t := plan.targets[i];
    assert t in plan.targets;
    assert walk.sent[i] == SentFor(r, body, world, plan.targets, i);
    OnlyModelReplaced(body.value.members, t.upstreamModel);
  }

  /** Each attempt goes out with its own member's material, to the surface and under the inject settings that its own
      pool entry stands for, on the client's path and with all of the client's headers but the hint. */
  lemma EachAttemptIsItsOwn(
    doc: C.Document, rr: C.Counters, rr': C.Counters, wire: string, model: string, hint: string, plan: C.Plan,
    outcomes: seq<Outcome>, r: Request, body: Option<Raw>, world: World, walk: Walk, i: nat)
    requires C.Resolves(doc, rr, model, wire, hint, Ok(plan), rr') && Served(plan, outcomes, r, body, world, walk)
    requires i in walk.sent
    ensures i < |C.Tried(doc, rr, model, wire, hint)| && C.Tried(doc, rr, model, wire, hint)[i].providerRef in doc.providers
    ensures var e, s := C.Tried(doc, rr, model, wire, hint)[i], walk.sent[i];
            var p := doc.providers[e.providerRef];
            && world.credential(i) == Some(s.material) && s.path == r.path
            && s.header == (map k | k in r.header && k != "X-Catalog-Modality" :: r.header[k])
            && s.target.inject == p.inject && s.target.injectPreset == p.injectPreset
            && (e.surface != "" ==> e.surface in p.surfaces && s.target.baseUrl == p.surfaces[e.surface].baseUrl)
            && (body == None || !body.value.Object? ==> s.body == body)
    ensures i < |walk.lookups|
    ensures walk.lookups[i] == doc.providers[C.Tried(doc, rr, model, wire, hint)[i].providerRef].credentialProfile
  {
    hide C.Resolves, C.Tried, ForUpstream, Trim, C.IsAuto, I.Canonical;
    C.TargetsFromEntries(doc, rr, model, wire, hint, plan, rr', i);
    assert walk.sent[i] == SentFor(r, body, world, plan.targets, i);
    if body.Some? && !body.value.Object? {
      OthersUnchanged(body.value, plan.targets[i].upstreamModel);
    }
    HintName();
  }

  lemma HintName()
    ensures I.Canonical("X-Catalog-Modality") == "X-Catalog-Modality"
  {
    var a := I.Title("X-Catalog-Modality");
    assert a[0] == 'X' && a[1] == '-' && a[2] == 'C' && a[3] == 'a' && a[4] == 't' && a[5] == 'a' && a[6] == 'l';
    assert a[7] == 'o' && a[8] == 'g' && a[9] == '-' && a[10] == 'M' && a[11] == 'o' && a[12] == 'd' && a[13] == 'a';
    assert a[14] == 'l' && a[15] == 'i' && a[16] == 't' && a[17] == 'y';
    assert a == "X-Catalog-Modality";
  }

  /** What the upstream reads as the model of a body it is sent is its own name for it exactly when the body is
      JSON or the two names are the same: a multipart form goes out with the client's name in it. */
  lemma UpstreamReadsItsModel(
    doc: C.Document, rr: C.Counters, rr': C.Counters, wire: string, plan: C.Plan, outcomes: seq<Outcome>,
    r: Request, world: World, walk: Walk, i: nat)
    requires ModelAndBody(r, wire).Some? && ModelAndBody(r, wire).value.0 != ""
    requires var (model, body) := ModelAndBody(r, wire).value;
             && C.Resolves(doc, rr, model, wire, ModalityHint(r, wire), Ok(plan), rr')
             && Served(plan, outcomes, r, body, world, walk)
             && body.Some?
    requires i in walk.sent
    ensures i < |plan.targets| && ModelAndBody(r.(body := walk.sent[i].body), wire).Some?
    ensures ModelAndBody(r.(body := walk.sent[i].body), wire).value.0 == plan.targets[i].upstreamModel <==>
            || ModelAndBody(r, wire).value.1.value.Object?
            || plan.targets[i].upstreamModel == ModelAndBody(r, wire).value.0
  {
    hide C.Resolves, ModalityHint, ForUpstream, Trim, EndsAt, I.Canonical, ReadModel, MultipartModel, R.First;
    var (model, body) := ModelAndBody(r, wire).value;
    ModelIsTrimmed(r, wire);
    TargetsAreNamed(doc, rr, model, wire, ModalityHint(r, wire), plan, rr');
    var t := plan.targets[i];
    assert t in plan.targets;
    assert walk.sent[i] == SentFor(r, body, world, plan.targets, i);
    if body.value.Object? {
      ReadsBack(body.value.members, t.upstreamModel);
      OnlyModelReplaced(body.value.members, t.upstreamModel);
      ObjectIsNoForm(body.value, r.boundary);
    } else {
      OthersUnchanged(body.value, t.upstreamModel);
    }
  }

  /** A multipart form that asks for model `a`, and what an upstream that calls it `b` is sent: the same form. */
  lemma FormKeepsItsName()
    ensures var form := Form([Part("model", Some("a"))], true);
            && MultipartModel(form, Some("x")) == Some("a")
            && BodyFor(Some(form), C.Target("a", "p", "openai-images", "", "u", "c", "b", map[], "")) == Some(form)
  {
    hide Trim, IsSpace;
    TrimNothing("a") by { assert !IsSpace('a') by { NoSpace(); } }
  }

  lemma NoSpace()
    ensures !IsSpace('a')
  {
  }

  lemma ObjectIsNoForm(raw: Raw, boundary: Option<string>)
    requires raw.Object?
    ensures MultipartModel(raw, boundary).Some? ==> MultipartModel(raw, boundary).value == ""
  {
  }

  lemma OthersUnchanged(raw: Raw, upstreamModel: string)
    requires !raw.Object?
    ensures ForUpstream(raw, upstreamModel) == raw
  {
  }

  /** The gateway's own hint never reaches an upstream, unless the catalog itself injects a header of that name. */
  lemma HintStaysHere(order: seq<string>, r: Request, m: P.Material, route: I.Route, fallback: I.Route)
    requires Listing(order, I.ActiveSpec(route, fallback).Keys)
    requires I.Canonical(MODALITY_HEADER) !in I.Targets(I.ActiveSpec(route, fallback).Keys)
    ensures forall n | n in order :: n in I.ActiveSpec(route, fallback)
    ensures var out := I.Outbound(order, OutHeader(r), m, route, fallback);
            out.Ok? ==> I.ValuesOf(out.value, I.Canonical(MODALITY_HEADER)) == []
  {
    hide I.Outbound, I.Targets, I.ActiveSpec;
    I.OtherHeadersKept(order, OutHeader(r), m, route, fallback, I.Canonical(MODALITY_HEADER));
    ModalityIsNoCredential();
  }

  lemma ModalityIsNoCredential()
    ensures I.Canonical(MODALITY_HEADER) !in I.AUTH_NAMES
  {
    assert |I.Title(MODALITY_HEADER)| == |MODALITY_HEADER| == 18;
    assert |I.AUTHORIZATION| == 13 && |I.X_API_KEY| == 9;
  }
}
