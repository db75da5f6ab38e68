# A model of daigate's routing, credentials, keys and shutdown

Daigate is a gateway: it checks a client's key, resolves the model the client asks for to upstream targets, puts the
upstream's credential on the request, tries the targets, and relays one response. This project models the parts of it
that carry state or order, and proves what they promise over every input, every run and every interleaving.

Code that computes is modelled by functions; code that changes fields or loops is modelled by classes and methods,
each proved against a specification function or predicate about which the lemmas speak. Go iterates maps in an
arbitrary order; the methods pick keys arbitrarily too, and their contracts pin the result down all the same, or say
which order it depended on. Other threads, the network, clocks, randomness and failing databases are parameters or
steps that may be anything.

| file | models |
|---|---|
| `Wire.dfy`, `Ingress.dfy` | one request: checks, body rewriting, and the failover walk (`wire/wire.go`) |
| `Catalog.dfy`, `RoundRobin.dfy`, `Doctor.dfy` | resolution, round robin, the models listing, handler tables and their doctor (`catalog/`, `passthrough/`) |
| `Substitute.dfy`, `Inject.dfy` | header templates and credential injection (`credential/inject/`) |
| `Payload.dfy`, `Store.dfy`, `Refinement.dfy`, `Statements.dfy`, `ReadBack.dfy`, `Snapshot.dfy`, `Refresh.dfy`, `RefreshRuns.dfy` | the credential vault, its two stores, its snapshot stream and OAuth refresh (`credential/`) |
| `SecretText.dfy`, `Keyring.dfy`, `Scopes.dfy` | gateway keys, their life, and what they may call (`ingress/keyring/`, `credential/admin/`) |
| `Drain.dfy` | admission and shutdown (`gateway/gateway.go`) |
| `Relay.dfy`, `DevicePoll.dfy` | relaying a response, polling for a device login (`upstream/relay.go`, `credential/oauth/generic/oauth.go`) |
| `Text.dfy` | strings as Go treats them, sorting, map listings |

`dafny verify dfyconfig.toml` checks everything.

## What the proofs turned up

Where the code does less than its documentation or a reader would expect, the model follows the code, and the
members named with each point state what holds instead, as an exact condition where there is one.

- `docs/catalog.md:212` lists 429, 502, 503 and 504 as the statuses that advance a failover pool; the code
  (`upstream/retry.go:12-18`) advances on 402 as well, and on every credential and handler error
  (`Wire.MovesOnIff`, `Wire.FirstFinalServes`).
- `docs/catalog.md:206` says a pool entry's `model` is what the upstream gets. Multipart bodies (image edits,
  transcriptions) are not JSON and go out with the client's name (`Wire.UpstreamReadsItsModel`,
  `Wire.FormKeepsItsName`).
- `docs/runtime.md:90` says a clean `adapters doctor` means every route has a handler. That is so exactly for
  surfaces that are picked by protocol or named on a wire they serve (`Doctor.CleanPlanServes`,
  `Doctor.DoctorMissesMiswiring`); and it rejects every catalog with transcriptions, and
  for that reason alone rejects exactly those (`Doctor.DoctorRejectsTranscriptions`,
  `Doctor.OnlyTranscriptionsMissed`).
- `docs/catalog.md:213` promises rotation per request. The counter is named after modality and wire, so models that
  share both share it, with equal pools or others; a model is rotated fairly in every schedule exactly when it has its
  key to itself (`RoundRobin.FairIffOwnKey`, `RoundRobin.CatalogRotatesIff`), and with company it can be served one
  entry for ever (`RoundRobin.SharedKeyStarves`).
- `docs/security.md:113` lists lifetime caps. A blank lifetime means a day, whatever the cap (`Scopes.TtlCap`,
  `Scopes.BlankTtlUncapped`).
- A credential value that spells a later placeholder is substituted again (`Substitute.ValueReread`), and an inject map
  with two spellings of one header depends on iteration order (`Inject.CollidingNames`).
- The in-memory store and the SQL store disagree on an update when a newer API key row hides the OAuth row, and on the
  identity key when an update brings no email (`Refinement.StepAgrees`, `Refinement.ShadowedUpdateDiverges`,
  `Refinement.IdentityAgrees`, `Refinement.EmptyEmailDiverges`). What is read from them never differs
  (`ReadBack.MemReads`). The in-memory
  key store uses up an id for a refused key, so the two hand out different ids from there on
  (`Keyring.IdsAgree`, `Keyring.IdsDiverge`).
- The SQL store writes a row and raises the generation in two statements, so in between the vault differs at an equal
  generation, and for good if the second one fails. A client that finds the same generation twice can trust that
  nothing changed exactly when every operation that wrote a row has had its bump
  (`Statements.PutHalfDone`, `Statements.SameIffSettled`, `Snapshot.SilenceMeansNoChange`, `Refinement.SilentChange`).
- A refresh holds nothing between its read and its writes. A credential disabled meanwhile is enabled by it
  (`RefreshRuns.EnabledIff`, `RefreshRuns.DisabledAndEnabled`), and a login stored meanwhile is overwritten, tokens and
  all, even one of the same account (`RefreshRuns.LostLogin`, `RefreshRuns.LoginAgainLost`). A refresh token of white
  space is stored and then refused (`Refresh.BlankTokenFromServer`, `Refresh.BlankTokenStored`).
- Only the first Connection value of a response is honoured (`Relay.LaterConnectionValuesIgnored`,
  `Relay.SecondValueIgnored`).
- The device loop checks its deadline before it waits, so its last poll may start after the code expired
  (`DevicePoll.TimedOutOnIdealClock`); it gives up on `slow_down`, which section 3.5 of RFC 8628 wants
  answered by slower polling (`DevicePoll.SlowDownIsFailure`).

## Model

| member | source | states |
|---|---|---|
| Wire.Engine.HandleWire | wire/wire.go:268-330 | Every request gets exactly one reply. It is refused before anything outside is touched when the method (405), the model (400), the scopes (403) or the resolution (400) is wrong; otherwise the plan is what resolution allows, and the walk over it looks up, calls, records and replies exactly as `Served` describes, with 502 for its own refusals; no response body is left open. |
| Wire.Engine.TryTargets | wire/wire.go:298-329 | The walk ends at the least index whose outcome it does not advance from, as Wire.MovesOnIff tells, or else at the last target; the profiles asked for are that prefix of the pool in order; the client sees one status line and a prefix of the relayed body and nothing of any discarded one. |
| Wire.Engine.TryTarget | wire/wire.go:298-328 | One attempt: credential errors, missing handlers, failed calls and retryable statuses advance while targets are left, a discarded response is closed and leaves the client untouched, and a call is made only while no earlier response is open. Which statuses those are is stated by Wire.MovesOnIff. |
| Wire.Engine.Forward | wire/wire.go:310-328 | The call of one attempt: an answer to be retried, by the statuses of Wire.MovesOnIff, is closed and leaves the client untouched, any other is relayed and closed, and a failed call is a refusal or the next target's turn. |
| Wire.Engine.WithAuth | wire/wire.go:84-97 | A request without a bearer secret that verifies is answered 401 and nothing outside happens; any other is made of exactly what `Handled` says of it, under the scopes of the key that verified, so that nothing happens either, and no round-robin counter moves, unless they authorize this model on this wire. |
| Wire.Engine.RequestBody | wire/wire.go:217-224 | No body stays no body; any other is rewritten for the target; the map that JSON `null` would leave nil is never written to. |
| Wire.ReadIngress | wire/wire.go:144-163 | Finds the model and the raw body for video polls, multipart forms and JSON, with each branch's failures. |
| Wire.NullNamesNothing | wire/wire.go:103-112 | A body that is the text `null` never names a model, so the rewrite, which would panic on it, is never reached. |
| Wire.FirstHealthyMemberServes | wire/wire.go:298-329 | With failover the client gets a final answer exactly when some pool member has one, and then the first such member's; otherwise every member was tried. Wire.FirstFinalServes says which answers are final. |
| Wire.OneAttemptWithoutFailover | wire/wire.go:292-329 | Without failover only the first target is looked up or called. |
| Wire.EndIsUnique | wire/wire.go:298-329 | The outcomes alone fix where the walk ends. |
| Wire.MovesOnIff | upstream/retry.go:12-18 | In a failover plan an attempt before the last pool member is followed by another if and only if it made no call, for want of a credential or a handler, or its call had no answer, or the status is 402, 429, 502, 503 or 504; it made its call if and only if it had both. |
| Wire.FirstFinalServes | wire/wire.go:322-328 | In a failover plan the client is relayed a status outside those five if and only if some member would give one, and then it is the first such member's answer; otherwise the last member decides, by its answer or by 502 for what it lacked. |
| Wire.LastDecides | wire/wire.go:298-329 | Whatever the strategy, the reply is decided by the attempt the walk ends at, its refusal or its answer, and that target is the one in the access log; without failover it is the first. |
| Wire.GateIs | wire/wire.go:268-285 | Which requests come to a plan: exactly those whose method the wire takes, that name a model, and that some scope lets through; and which of the three refusals any other gets. |
| Wire.QueryModel | wire/wire.go:144-150 | Asking after a video names its model in the query, trimmed. |
| Wire.JsonModel | wire/wire.go:103-112 | Any other body that is not a form names the last `model` string of its JSON object, the name in any case, or none. |
| Wire.FormModelIs | wire/wire.go:114-142 | A form names the content of its first `model` part, or nothing when that part cannot be read or the form breaks off before it. |
| Wire.HintIs | catalog/modality.go:16-27 | Embeddings resolve with the hint `embed`, media wires with none, text wires with the trimmed header of the client. |
| Wire.BearerIs | ingress/keyring/keyring.go:64-74 | A request brings a secret if and only if its first `Authorization` value is `Bearer ` and something not blank, and then that, trimmed. |
| Wire.StockCalls | passthrough/adapter.go:24-34 | With the stock handlers an attempt makes its call if and only if it has a credential and a target without an adapter whose protocol is the wire's own, or any of the three text protocols on a text wire. |
| Wire.CleanCatalogRouted | wire/wire.go:310-321 | With a clean doctor's report and the stock handlers, an attempt makes its call if and only if it has a credential and its pool entry leaves its surface to be picked or names one that serves this wire; the client is answered `route not registered` if and only if that is what the last attempt lacked. |
| Wire.TargetsAreNamed | catalog/catalog.go:257-278 | Every target of every plan carries a non-blank, trimmed upstream model. |
| Wire.EachAttemptReplacesOnlyModel | wire/wire.go:165-183 | Each attempt sends the client's own JSON object with `model` alone replaced, by its pool entry's own model name trimmed, or by the client's exactly when the entry has none, each name once; nothing an earlier attempt sent shows in it. |
| Wire.EachAttemptIsItsOwn | wire/wire.go:298-310 | Each call carries the material its own member's profile was looked up for, that entry's provider's inject settings and surface address, the client's path, all of the client's headers but the hint, and an untouched body when that is not a JSON object. |
| Wire.UpstreamReadsItsModel | wire/wire.go:165-183 | What the upstream reads as the model is its own name for it if and only if the body is a JSON object or the two names are equal: multipart forms go out unchanged. |
| Wire.FormKeepsItsName | wire/wire.go:165-172 | A form that asks for model `a` is sent unchanged to an upstream that calls it `b`. |
| Wire.HintStaysHere | catalog/modality.go:29-35 | The modality hint header never reaches an upstream unless the catalog injects a header of that name. |
| Ingress.RewriteModelBody | wire/wire.go:165-183 | Computes the rewritten body, the members in sorted order, for every body but a `null` that is to be rewritten. |
| Ingress.ModelFromMultipart | wire/wire.go:114-142 | A model found is the trimmed content of the first part named `model`; unreadable and broken forms are errors. |
| Ingress.OnlyModelReplaced | wire/wire.go:165-183 | Read back as a map, the rewritten object is the client's with `model` replaced, and has no name twice. |
| Ingress.RewriteTwice | wire/wire.go:165-183 | Rewriting for one target and then for another is rewriting for the other alone. |
| Ingress.ReadsBack | wire/wire.go:103-112 | A case-insensitive reader, like the gateway itself, finds the upstream's model in the rewritten object whatever other spellings of `model` the client sent. |
| Ingress.LowerIsGreatest | wire/wire.go:177-181 | In the sorted output the lower-case spelling of a name comes after all its other spellings, so it wins. |
| Substitute.SubstituteTemplate | credential/inject/spec.go:100-130 | The four passes in order; success leaves no `${` in the text, for all templates and values. |
| Substitute.SequentialIsSimultaneous | credential/inject/spec.go:100-130 | For all templates and values: the passes return the simultaneous substitution if and only if every mentioned placeholder has a value and that substitution holds no `${`. |
| Substitute.PlainSubstitution | credential/inject/spec.go:100-130 | With `$`-free literals and values the two always agree, and fail exactly when a mentioned value is empty. |
| Substitute.MissingIsError | credential/inject/spec.go:103-125 | A mentioned placeholder without a value is an error whatever the other values are. |
| Substitute.ValueReread | credential/inject/spec.go:103-125 | The condition is needed: a key spelling `${access}` is itself substituted. |
| Substitute.PassRender | credential/inject/spec.go:103-125 | One pass over a partly filled template fills exactly its own placeholder. |
| Substitute.MissingNoticed | credential/inject/spec.go:103-125 | No earlier pass can hide a placeholder that has no value. |
| Inject.Relay | passthrough/adapter.go:76-92 | A fresh request ends with exactly the outbound headers of the client's headers, the credential and the route, for some iteration order of the inject map; what those hold is told by Inject.PresetSends and Inject.EntryIsSubstituted, and what never gets into them by Inject.OnlySecretsSent. |
| Inject.OutRequest.CopyHeaders | credential/inject/inject.go:31-37 | All values of all names are added, in whatever order the map is visited. |
| Inject.OutRequest.StripClient | credential/inject/inject.go:40-44 | Removes the two credential headers and nothing else. |
| Inject.OutRequest.ApplySpec | credential/inject/spec.go:70-86 | Sets each entry's header to its substituted value and stops at the first bad entry of the order visited. |
| Inject.OutRequest.ApplyPreset | credential/inject/spec.go:43-67 | The preset headers for both kinds of credential, whose values Inject.PresetSends states, and the three errors. |
| Inject.OutRequest.ApplyRoute | credential/inject/spec.go:27-39 | Strips, then applies the route's map, the route's preset, the adapter's map or the adapter's preset, in that precedence. |
| Inject.VerdictIsOrderFree | credential/inject/spec.go:70-86 | Whether a map can be applied is the same in every iteration order: exactly when each entry is good. |
| Inject.OrderFreeIffAgreeing | credential/inject/spec.go:70-86 | If all entries are good, the headers are the same in every iteration order if and only if entries naming the same canonical header agree on its value. |
| Inject.ApplyWrites | credential/inject/spec.go:70-86 | What is written: each entry's header has its entry's value, every other header is as before. |
| Inject.CollidingNames | credential/inject/spec.go:132-142 | Two spellings of one header give different results in different iteration orders. |
| Inject.ClientAuthNeverMatters | credential/inject/spec.go:27-39 | For any two clients that differ only in credentials and any two iteration orders, success is the same, and so are the headers when colliding entries agree. |
| Inject.SameOrderSameRequest | passthrough/adapter.go:87-90 | For one and the same iteration order, the request or the error is the same for both clients, colliding entries or not. |
| Inject.OtherHeadersKept | credential/inject/inject.go:31-44 | A client header the route does not set goes through unchanged; a credential header goes out if and only if the route's map or preset set it. |
| Inject.PresetSends | credential/inject/spec.go:43-67 | With no header map, for every client, credential and route: success exactly for the presets known for its kind; the one credential header holds exactly the trimmed API key or access token, behind `Bearer ` or bare; the other is absent; and which error it is otherwise. |
| Inject.OnlySecretsSent | credential/inject/spec.go:27-86 | Non-interference: for every iteration order and route, two materials with the same trimmed API key, or the same trimmed access token, account and project, give the same request or error. |
| Inject.RefreshTokenStays | credential/inject/spec.go:27-86 | In particular the refresh token, email, expiry and profile never show in a request. |
| Inject.EntryIsSubstituted | credential/inject/spec.go:70-130 | An entry alone in setting its header: success only if all its placeholders have values and its result is not empty, and the header then holds the simultaneous substitution of the trimmed secrets if and only if no `${` comes up in it. |
| Inject.PlaceholderSends | credential/inject/spec.go:88-98 | An entry that is one placeholder: the header holds the trimmed API key, access token, account or project itself if and only if that has no `${` in it, and without a value there is no request. |
| Inject.RouteComesFirst | credential/inject/spec.go:27-39 | The route's map, else its preset, else the adapter's map or preset; the settings passed over make no difference. |
| Inject.SameTargetIff | credential/inject/spec.go:132-142 | Two entries set one header if and only if their names are the same but for case and the space around them. |
| Inject.CredentialTargets | credential/inject/spec.go:132-142 | The two credential headers are set by every spelling of their names and by no other name. |
| Catalog.Catalog.constructor | catalog/catalog.go:105-112 | Flat legacy providers become providers with one `default` surface; nothing else changes. |
| Catalog.Catalog.ResolveWithModality | catalog/catalog.go:170-214 | Whatever order the modality map is visited in, the result and the counters are what `Resolves` allows, with every error in the coded precedence. |
| Catalog.Catalog.PickModality | catalog/catalog.go:216-255 | For any list of candidates: the hinted one, the only one, `chat` among its search siblings, or an error listing them as given. |
| Catalog.PickedFromSorted | catalog/catalog.go:180-188 | On the sorted candidates the pick depends on the set of them alone. |
| Catalog.Catalog.SurfaceFor | catalog/catalog.go:280-303 | The named surface, or the least id with no adapter and a matching protocol. |
| Catalog.Catalog.TargetFromEntry | catalog/catalog.go:257-278 | Builds the target of an entry as `TargetOf` says, of which Catalog.EntryTarget tells every field, or reports the unknown provider or surface. |
| Catalog.Catalog.PickEntries | catalog/catalog.go:331-352 | The whole pool for failover; one entry and one more on this key's counter, and no other, for round robin; an error for an empty pool or an unknown strategy. |
| Catalog.ResolutionIsDetermined | catalog/catalog.go:170-214 | Resolution is a function of the document and the counters: any two iteration orders give the same plan or error and the same counters. |
| Catalog.SurfaceUnique | catalog/catalog.go:280-303 | The surface of an entry does not depend on iteration order. |
| Catalog.SurfaceExists | catalog/catalog.go:280-303 | There is always a surface or exactly the error that applies. |
| Catalog.FirstIsAuto | catalog/catalog.go:290-302 | The first eligible id of the sorted ids is the least eligible one. |
| Catalog.PlanShape | catalog/catalog.go:192-213 | A plan is never empty; a failover plan has one target per pool entry in pool order, a round-robin plan the one its counter points at. |
| Catalog.PlanTargets | catalog/catalog.go:205-213 | Target by target, a plan is what the pool entries it was made from resolve to. |
| Catalog.TargetsFromEntries | catalog/catalog.go:257-278 | For every plan and every target in it: the upstream model is the entry's own name, or the client's exactly when the entry's is blank; profile and inject settings are the provider's; protocol, adapter and address are those of the surface the entry names, or of the least eligible one. |
| Catalog.EntryTarget | catalog/catalog.go:257-278 | The same for one entry and its target. |
| Catalog.WirePicksItsSurface | catalog/catalog.go:305-329 | From a provider with one surface for each stock protocol, each wire picks the surface that speaks its own protocol, and an unknown wire none. |
| Catalog.ModalityTold | catalog/catalog.go:170-255 | Told from the document alone, the one modality a request can be about: the one hinted at, the only one on the wire, or `chat` beside searches only; without one, exactly which of the four refusals it gets. |
| Catalog.PoolTold | catalog/catalog.go:189-201 | What the modality's strategy makes of its pool, counters included: the empty pool, `sticky` and unknown strategies refused in that order, failover by default, round robin by the counter named after modality and wire. |
| Catalog.PlanOrTrouble | catalog/catalog.go:205-213 | There is a plan if and only if no entry tried is in trouble, and otherwise the error is the first one's: unknown provider, unknown surface, or no surface for the wire. |
| Catalog.FlatProvider | catalog/catalog.go:105-112 | A provider in the flat form serves the wire its protocol matches, under its own address. |
| Catalog.OneCounterEach | catalog/catalog.go:200-201 | Modalities without a bar in their names share a counter if and only if they have one name and one wire. |
| Catalog.Catalog.ListModels | catalog/models_list.go:33-53 | A model with modalities is listed if and only if the scopes authorize one of its wires; ids are sorted and unique. |
| Catalog.Catalog.ModelWires | catalog/models_list.go:55-65 | Exactly the wires of the model's modalities, each once. |
| RoundRobin.CounterCountsPicks | catalog/catalog.go:338-348 | In every lock order of picks, a key's counter has grown by exactly the picks on that key. |
| RoundRobin.PicksRotate | catalog/catalog.go:338-348 | The i-th pick on a key used with one pool is entry i mod n, counting on from the counter. |
| RoundRobin.HitsBalanced | catalog/catalog.go:338-348 | Among m consecutive numbers each remainder modulo n occurs floor or ceiling of m/n times. |
| RoundRobin.RoundRobinIsFair | catalog/catalog.go:338-348 | In every window of m consecutive picks on a key used with one pool of n distinct entries, each is served floor or ceiling of m/n times. |
| RoundRobin.SharedKeyStarves | catalog/catalog.go:200-201 | The key does not name the model: whenever another user has the key, with any pool, an equal one included, there is a schedule in which every pick of the first is served the same entry, from any counters on and for ever. |
| RoundRobin.FairIffOwnKey | catalog/catalog.go:338-348 | A user, a modality of a model, whose pool has at least two distinct entries is served fairly in every schedule from all counters on if and only if nobody else has its key. |
| RoundRobin.OwnKeyIsFair | catalog/catalog.go:338-348 | On a key of its own, every window of a user's picks is fair. |
| RoundRobin.SharedKeyIsUnfair | catalog/catalog.go:200-201 | Any other user of the key, whatever its pool, makes some window unfair. |
| RoundRobin.ResolutionIsAPick | catalog/catalog.go:170-214 | Every resolution that moves a counter is one pick of one of the key's users, from that user's own pool, and the target is the entry picked. |
| RoundRobin.UserCanPick | catalog/catalog.go:216-226 | Every user can pick: a request that hints at its modality by name does. |
| RoundRobin.CatalogRotatesIff | catalog/catalog.go:192-201 | In a catalog, a round-robin modality with at least two distinct pool entries rotates fairly under every load if and only if no other modality of any model has its key. |
| Doctor.RegisterPassthrough | passthrough/adapter.go:24-34 | The stock handler table. |
| Doctor.RegisteredRoutes | catalog/catalog.go:355-378 | Finds exactly the protocol and adapter names the catalog uses, in any iteration order. |
| Doctor.Examine | catalog/catalog.go:381-395 | Reports exactly the used names that are not registered; reports nothing if and only if all are. |
| Doctor.AdaptersDoctor | cmd/daigate/adapters.go:122-154 | The command passes a catalog if and only if the names it gathers, transcription handlers not among them, cover it. |
| Doctor.CleanCatalogServes | wire/dispatch.go:9-40 | If the doctor reports nothing, a target finds a handler exactly when its protocol is in the stock table of its wire; it does whenever its protocol matches the wire. |
| Doctor.CleanPlanServes | wire/wire.go:226-266 | In a clean catalog every target of a plan has a handler if and only if each pool entry it was made from leaves its surface to be picked or names one the stock table serves on this wire. |
| Doctor.FitsIffFound | wire/dispatch.go:9-16 | The same for one entry and its target. |
| Doctor.DoctorMissesMiswiring | catalog/catalog.go:280-288 | A catalog the doctor passes although its named surface has no handler on its wire. |
| Doctor.DoctorRejectsTranscriptions | cmd/daigate/adapters.go:122-137 | Every catalog that serves transcriptions is reported, although the stock handler for them exists. |
| Doctor.OnlyTranscriptionsMissed | cmd/daigate/adapters.go:122-137 | In a catalog whose names are all registered, transcription handlers included, the doctor reports nothing if and only if nothing serves transcriptions. |
| Store.Memory.Get | credential/store/memory.go:75-88 | The newest row by id, through the index; not found and disabled are the errors. |
| Store.Memory.PutAPIKey | credential/store/memory.go:90-109 | Adds a row under the next id, points the index at it and raises the generation; that the key is read back is ReadBack.KeyRoundTrip and ReadBack.MemKeyReadsBack. |
| Store.Memory.PutOAuthMaterial | credential/store/memory.go:111-131 | The same for OAuth material, with the email as identity. |
| Store.Memory.Update | credential/store/memory.go:175-201 | Rewrites and enables the newest row if it is OAuth, keeps the identity when no email comes; every other row object is untouched. |
| Store.Memory.DisableRow | credential/store/memory.go:203-216 | Sets the cause of one row and raises the generation, or reports a missing id. |
| Store.Memory.BumpGeneration | credential/store/memory.go:47-54 | Raises the generation and nothing else. |
| Store.IndexIsNewest | credential/store/memory.go:75-88 | The index entry of a profile is the greatest row id it has, and absent when it has none. |
| Store.SQLite.Get | credential/store/sqlite.go:111-127 | The newest row of the profile, by `ORDER BY id DESC LIMIT 1`. |
| Store.SQLite.PutAPIKey | credential/store/sqlite.go:129-144 | Inserts a row; a generation bump that fails afterwards is ignored; that the key is read back is ReadBack.KeyRoundTrip and ReadBack.SqlKeyReadsBack. |
| Store.SQLite.PutOAuthMaterial | credential/store/sqlite.go:146-165 | The same for OAuth material. |
| Store.SQLite.Update | credential/store/sqlite.go:224-255 | Rewrites the newest OAuth row, clears the identity when no email comes; a failed bump is reported although the row is written. |
| Store.SQLite.DisableRow | credential/store/sqlite.go:257-269 | Sets the cause of one row; a failed bump is reported although the row is written. |
| Store.SQLite.BumpGeneration | credential/store/sqlite.go:76-80 | Raises the generation when the database lets it. |
| Refinement.StepAgrees | credential/store/memory.go:175-216 | From alike vaults, one operation answers alike in both stores if and only if it is not an update shadowed by a newer API key row; the vaults then stay alike. |
| Refinement.RunsAgree | credential/store/memory.go:90-216 | Over every run, the two stores give the same answers if and only if no update is shadowed when it comes; the tables and generations then agree. |
| Refinement.MemoryRefinesSql | credential/store/sqlite.go:111-165 | Over every run in which no profile mixes kinds, answers, lookups, disabled rows and generation agree. |
| Refinement.KindsKeptOverRun | credential/store/memory.go:90-131 | Never mixing kinds means no update is ever shadowed. |
| Refinement.IdentityAgrees | credential/store/sqlite.go:240-246 | The two stores also agree on the identity key if and only if the update brings an email or there was none to keep. |
| Refinement.EmptyEmailDiverges | credential/store/sqlite.go:235-243 | A login with an email and then an update without one: memory keeps the identity key, SQL clears it. |
| Refinement.ShadowedUpdateDiverges | credential/store/sqlite.go:226-228 | An API key put over an OAuth credential makes the next update shadowed. |
| Refinement.GenerationCounts | credential/store/memory.go:47-54 | Each operation fails and changes nothing or raises the generation by one. |
| Refinement.GenerationTellsChange | credential/store/memory.go:47-65 | Over every run with a working store, in memory or SQL, the generation has grown by the successes; equal generations mean equal vaults. |
| Refinement.SilentChange | credential/store/sqlite.go:240-255 | With any database failure: the vault changes without the generation moving if and only if the bump is what fails and the operation adds a row or found one it alters; rows change if and only if the write happened and there was such a row. |
| Refinement.GenerationTellsSqlChange | credential/store/sqlite.go:76-80 | Over every run of whole operations on the SQL store with any failures, equal generations mean equal vaults at all moments between operations if and only if no operation is silent when it comes. |
| Refinement.SilentPut | credential/store/sqlite.go:129-144 | A put whose bump fails is silent, and its caller is told it succeeded. |
| Statements.WholeOperation | credential/store/sqlite.go:129-269 | Run without interruption, the statements of an operation do what the operation does as one step, whatever fails. |
| Statements.WriteOrBump | credential/store/sqlite.go:76-80 | No statement both changes a row and raises the generation, and one that does neither changes nothing. |
| Statements.EqualGenerations | credential/store/sqlite.go:129-143 | With the statements of any number of operations in any order: between two moments with the same generation the vault stays the same throughout if and only if no statement in between wrote a row. |
| Statements.SameIffSettled | credential/store/sqlite.go:240-254 | The vault stays the same throughout from one moment to another if and only if they have the same generation and every operation that wrote a row in between has had its bump. |
| Statements.PutHalfDone | credential/store/sqlite.go:129-143 | With nothing failing, between the insert and the bump of a put the vault differs at an equal generation. |
| ReadBack.SqlReads | credential/store/sqlite.go:111-127 | After every run on the SQL store, wherever the database fails, every profile reads as a model without rows says: the key or the login its last put that went through stored, or the last login written over that, or the cause it was last disabled for, under that row's id. |
| ReadBack.MemReads | credential/store/memory.go:75-88 | The same after every run on the in-memory store; so the two stores read alike after every run, even where kinds are mixed and their answers to updates differ. |
| ReadBack.SqlKeyReadsBack | credential/store/sqlite.go:129-144 | Over every run and every failure that lets its insert through: an API key that no later put has replaced and no later disable names the row of is read back as it was, with every other field empty; the put had answered with that row's id. |
| ReadBack.MemKeyReadsBack | credential/store/memory.go:90-109 | The same on the in-memory store. |
| ReadBack.KeyRoundTrip | credential/store/payload.go:33-70 | Put and read at once, on any vault, in both stores: every key comes back as it was. |
| ReadBack.MemAnswers | credential/store/memory.go:90-216 | Every answer of every run on the in-memory store, told from the operations before it: ids in turn, an update done exactly when its profile holds a login, a disable exactly when the id was given out. |
| ReadBack.SqlAnswers | credential/store/sqlite.go:129-269 | The answer to one more operation after every run on the SQL store with any failures: an update finds a row exactly when a login for the profile has reached the store, even under a newer key. |
| Snapshot.Stream | credential/admin/server.go:104-155 | On either store, with polls falling between the single statements of the SQL one, and with any failures: what is sent starts with the generation on subscribing, increases strictly, is made of exactly the generations the polls found, and after a poll that follows the last bump ends with the store's own. |
| Snapshot.SilenceMeansNoChange | credential/admin/server.go:127-148 | Between two moments of the SQL store nothing changed if and only if the generation is the same at both and every operation that wrote a row in between has had its bump. |
| Snapshot.NewsIff | credential/admin/server.go:127-148 | Whatever happened at a moment, the client is told of a generation above that moment's if and only if some bump comes after it and a poll after that. |
| Snapshot.AfterIsRun | credential/admin/server.go:104-155 | The stream watches the store the statement results speak of. |
| Payload.MergeExtras | credential/store/payload.go:127-138 | The merge, entry by entry in any order. |
| Payload.MergeOAuthExtras | credential/store/payload.go:87-103 | Extras trimmed, then the legacy account and project fields where a key is missing. |
| Payload.CloneExtrasLoop | credential/store/payload.go:105-116 | Values trimmed and blank ones dropped, in any iteration order. |
| Payload.OAuthRoundTrip | credential/store/payload.go:41-85 | Decoding what was encoded gives the credential with extras trimmed and blanks dropped; its expiry comes back if and only if it is unset or a whole positive millisecond. |
| Payload.RereadTwice | credential/store/payload.go:41-85 | Storing what was read changes nothing more. |
| Payload.LegacyPrecedence | credential/store/payload.go:87-124 | Legacy fields only fill the two keys the extras lack, snake case before camel case; no decoded value is blank. |
| Payload.MergeKeepsKeys | credential/store/payload.go:127-138 | A merge loses no stored key and prefers what was refreshed unless it is blank. |
| Refresh.RefreshProfile | credential/oauth/generic/oauth.go:412-447 | The new vault and outcome for every answer, every failure and everything others do between the read and the writes; at most three attempts, all three before it gives up, none after the caller has given up, none at all if it is refused. |
| Refresh.RefreshFills | credential/oauth/generic/oauth.go:412-447 | A refresh that nothing comes between changes at most the newest row of its profile, which was an enabled OAuth row. |
| Refresh.RefreshEnds | credential/oauth/generic/oauth.go:412-447 | How every refresh ends, whatever others do meanwhile: the four cases that leave the vault alone, in order, and otherwise by its three attempts, the first on which the database works or after whose failure the caller has given up. |
| Refresh.RefreshedReads | credential/oauth/generic/oauth.go:476-494 | What is stored after a refresh that went through, whatever others did meanwhile: the server's access token, its refresh token or else the old one, the expiry cut to whole milliseconds, and the email and extras as they were when it read. |
| Refresh.BlankTokenFromServer | credential/oauth/generic/oauth.go:476-480 | Whatever others did meanwhile, a refresh leaves a token the next refresh rejects if and only if the server sent one of white space only. |
| Refresh.BlankTokenStored | credential/oauth/generic/oauth.go:417-419 | A blank token is stored and the next refresh is refused. |
| Refresh.CallTouches | credential/store/sqlite.go:224-269 | An operation changes an existing row only as the newest OAuth row of its profile or by its id, an update filling and enabling it, a disable setting its cause, and nothing else of the row but the time. |
| RefreshRuns.RefreshIsARun | credential/oauth/generic/oauth.go:412-447 | The method's specification is a run of the statement model: a read, then the statements of the attempts it made with those of others between them. |
| RefreshRuns.EnabledIff | credential/store/sqlite.go:224-255 | Over every interleaving of the statements of refreshes and other operations: a disabled row is ever enabled again if and only if someone else enables it, or a refresh that had read before the row was disabled writes the row its SELECT chose, and that is this one. |
| RefreshRuns.DisabledStaysDisabled | credential/oauth/generic/oauth.go:412-447 | With no refresh in flight, a disabled row stays disabled over every interleaving if and only if nobody else enables it. |
| RefreshRuns.DisabledWhileRefreshing | credential/store/sqlite.go:240-246 | With whole operations between a refresh's read and its write: the write enables a disabled credential if and only if it reaches the database and the last operation to write the row it fills disabled it. |
| RefreshRuns.DownIff | credential/store/sqlite.go:257-269 | A row is disabled after any operations if and only if the last one to write it disabled it. |
| RefreshRuns.RefreshesLoseNothing | credential/oauth/generic/oauth.go:412-447 | Over every interleaving of the statements of refreshes and other operations, with any answers and failures: a profile's newest credential keeps a refresh token, its email and its extras at all times if and only if nobody logs it in with others and no refresh writes that had read others before. |
| RefreshRuns.LostLogin | credential/oauth/generic/oauth.go:426-434 | With whole operations between a refresh's read and its write: a login stored meanwhile survives as a whole if and only if it has the tokens, email, extras and reread expiry the refresh writes; its email and extras survive if and only if they are those the refresh had read. |
| RefreshRuns.LoginKeptIff | credential/store/sqlite.go:224-255 | Statement by statement, a login stays in its row at all moments if and only if no update whose SELECT chose that row writes another there. |
| RefreshRuns.ExecWrites | credential/store/sqlite.go:240-269 | An update's write replaces the credential in the row its SELECT chose and enables it, a disable sets the cause of its row, and no other row changes. |
| RefreshRuns.AttemptRuns | credential/oauth/generic/oauth.go:430-444 | One attempt, statement by statement, leaves the vault and the refreshes in flight as one update would. |
| RefreshRuns.DisabledAndEnabled | credential/store/sqlite.go:240-246 | A refresh is under way, its credential is disabled, and the refresh enables it. |
| RefreshRuns.LoginAgainLost | credential/oauth/generic/oauth.go:426-434 | The same account logs in again during its refresh, and the token that login brought is gone. |
| RefreshRuns.StoredIsLastLogin | credential/store/sqlite.go:146-165 | What is stored for a profile is the last login that reached the database. |
| Drain.ReachableInv | gateway/gateway.go:118-131 | In every interleaving the mutex has one holder, the count is the number of tracked requests, and a signalled waiter means there are none. |
| Drain.DrainCountsDown | gateway/gateway.go:224-253 | Once the flag is set no request is admitted again, and the count is what it was less the requests finished since. |
| Drain.SignalIsFinal | gateway/gateway.go:224-253 | Once a waiter has signalled, nothing is in flight in that state or any later one, and a shutdown that reports completion saw such a signal. |
| Drain.AddBeforeWait | gateway/gateway.go:118-131 | `Add` is called only while no shutdown has come past its first line, as a wait group demands. |
| Drain.NeverStuck | gateway/gateway.go:224-253 | While a request is unanswered, or a shutdown has not returned or its waiter not ended, some thread already there can step. |
| Drain.RunsEnd | gateway/gateway.go:224-253 | Without new arrivals and deadlines every run is finite: each step uses up some of a bounded amount of work. |
| Drain.EndsDrained | gateway/gateway.go:224-253 | Where no thread can step any more, every request was answered and every shutdown has returned, its waiter with it. |
| Drain.InFlightStep | gateway/gateway.go:118-131 | Only `Add` and `Done` change the set of tracked requests, each by its own request. |
| Drain.Gateway.Enter | gateway/gateway.go:118-131 | An arriving request takes exactly the protocol's steps of the locked part of `track`, and is admitted if and only if the flag is down. |
| Drain.Gateway.Leave | gateway/gateway.go:128-129 | `Done` never takes the count below zero. |
| Drain.Gateway.Close | gateway/gateway.go:224-228 | A shutdown takes exactly the protocol's steps of its locked part and leaves the count alone. |
| Drain.Gateway.Await | gateway/gateway.go:245-252 | A drain reported complete is complete: nothing is in flight. |
| SecretText.AcceptedTexts | ingress/keyring/keyring.go:99-113 | A text is accepted with an id if and only if it is the prefix, a dot-free int64 numeral of that positive id, a dot and a non-empty tail. |
| SecretText.NumeralIs | ingress/keyring/keyring.go:104-110 | The numerals an id is accepted in: its decimal digits after any zeros and at most one plus sign, up to 2^63-1. |
| SecretText.ParseKeyId | ingress/keyring/keyring.go:99-113 | Every accepted id is in 1..2^63-1. |
| SecretText.PrintedParses | ingress/keyring/keyring.go:91-97 | Every id printed with any non-empty tail parses back to itself. |
| SecretText.ParsePrintParse | ingress/keyring/keyring.go:91-113 | Parse after print after parse is parse, for every accepted text. |
| SecretText.FormatInjective | ingress/keyring/keyring.go:91-97 | Two keys with the same text have the same id and tail. |
| Keyring.VerifiesIffVouched | ingress/keyring/keyring.go:135-203 | Over every interleaving of inserts, seals and revocations and at every clock reading: a secret verifies as a principal if and only if one Create sealed it into the row it inserted for that principal, no revocation came since the insert, and the lifetime is not over. |
| Keyring.HalfCreatedNeverVerifies | ingress/argonhash/argonhash.go:28-32 | A row whose hash is still empty accepts no secret. |
| Keyring.NeverRevived | ingress/keyring/keyring.go:179-203 | A revoked or expired key never verifies again, whatever follows, a late seal included. |
| Keyring.RowHistory | ingress/keyring/keyring.go:135-167 | Each row is exactly what the statements since its insert made it. |
| Keyring.SQLStore.Create | ingress/keyring/keyring.go:135-167 | Refused exactly when an issued key has no lifetime or the ids have run out, and then nothing changes and no id is used up; the secret returned verifies as the name, id and scopes given at exactly the times whose millisecond is not past that of the end of its lifetime. |
| Keyring.SQLStore.InsertRow | ingress/keyring/keyring.go:135-155 | The insert, and the id it hands out. |
| Keyring.SQLStore.SealRow | ingress/keyring/keyring.go:156-167 | The seal of one row, and the secret. |
| Keyring.SQLStore.RevokeRow | ingress/keyring/keyring.go:232-242 | Revokes one row and reports whether it was there. |
| Keyring.SQLStore.Verify | ingress/keyring/keyring.go:169-203 | The lookup by id with its four refusals. |
| Keyring.MemoryStore.Create | ingress/keyring/keyring.go:258-280 | A sealed record under the next id; a refused key still uses one up. |
| Keyring.MemoryStore.Verify | ingress/keyring/keyring.go:282-301 | The scan over the records finds what a lookup by id would. |
| Keyring.MemoryStore.RevokeRow | ingress/keyring/keyring.go:312-321 | Revokes the record with the id and no other. |
| Keyring.IdsAgree | ingress/keyring/keyring.go:258-280 | Over every log of creates the two stores hand out the same ids if and only if no refused create is followed by an accepted one. |
| Keyring.IdsDiverge | ingress/keyring/keyring.go:258-280 | A refused create and then an accepted one: number 1 in SQL, number 2 in memory. |
| Scopes.ShownIffSomeWireAuthorized | ingress/keyring/scopes.go:29-51 | The listing shows a model served on some wire if and only if one of its wires is authorized. |
| Scopes.ShownWithoutWires | ingress/keyring/scopes.go:29-51 | A model without wires is shown exactly to keys with no scopes, a blank or `*` scope, or one naming it. |
| Scopes.CreateKey | credential/admin/server.go:206-254 | Which policy, lifetime and scopes a new key gets, and which refusal comes first; what that key may call is Scopes.MintedKeyCalls. |
| Scopes.MintedKeyCalls | credential/admin/policy.go:50-69 | For every role, policy pair and request that is minted, and every model and wire: the scopes stored and read back authorize the pair if and only if the policy's own list does, where the policy insists on it, or else the requested scopes; a list that names scopes is never stored as the empty one. |
| Scopes.KeyCallsWhatWasMeant | credential/admin/server.go:245-254 | The same of the key in use: whenever it verifies, over every history of the key store, it may call exactly that. |
| Scopes.MintedIff | credential/admin/policy.go:32-69 | Exactly which requests are minted, the default policies written out. |
| Scopes.MintedLifetime | credential/admin/server.go:232-244 | The kind and lifetime minted: none for a static key, 24 hours for a blank request, otherwise what was asked for or the cap. |
| Scopes.ScopeReaches | ingress/keyring/scopes.go:11-27 | What single scopes reach: a model everywhere, a wire with every model, star, blank or no scope everything, any other form nothing. |
| Scopes.MintedWithinPolicy | credential/admin/policy.go:50-69 | Under a policy with scopes, what is stored and read back is never the empty list and admits only what the policy admits. |
| Scopes.KeyStaysWithinPolicy | credential/admin/server.go:245-254 | A key minted under such a policy can, however the store's history goes on, call only what the policy admits. |
| Scopes.TtlCap | credential/admin/policy.go:32-47 | A lifetime is positive, and within the cap if and only if one was asked for or the default is. |
| Scopes.BlankTtlUncapped | credential/admin/policy.go:33-35 | Under a cap of one hour, a key asked for without a lifetime lives for a day. |
| Scopes.ConfiguredPolicyHolds | credential/admin/policy.go:72-105 | With policies read from the configuration, whatever is minted stays inside them: a configured list admits what the stored key admits, a provisioned key is issued under a non-empty list, and a lifetime that was asked for is within the cap. |
| Relay.RemoveHopByHopHeaders | upstream/relay.go:30-41 | What is left is exactly what is outside the hop-by-hop list and the first Connection value. |
| Relay.EndToEndIs | upstream/relay.go:19-41 | The client gets, value for value, all headers but eight names written out and those the first Connection value lists. |
| Relay.NominatedIff | upstream/relay.go:31-36 | The names a Connection value lists are what its comma-separated fields hold between their blanks, made canonical. |
| Relay.LaterConnectionValuesIgnored | upstream/relay.go:30-36 | All headers that section 6.1 of RFC 7230 names are gone if and only if each present one is on the fixed list or in the first Connection value. |
| Relay.SecondValueIgnored | upstream/relay.go:31-36 | A header that only the second Connection value lists goes on to the client. |
| Relay.CopySSE | upstream/relay.go:93-118 | At every exit the client has a prefix of the body; a nil return means all of it; it stops within one round a byte and one more; each complete line was flushed when the client had it and nothing after it. |
| Relay.CopyResponse | upstream/relay.go:72-91 | Status, end-to-end headers and a prefix of the body, all of it when the copy succeeds; a client that stays gets the whole of a body that ends, and of an event stream each complete line as soon as it is there. |
| DevicePoll.LoginDevice | credential/oauth/generic/oauth.go:280-303 | The loop ends after at most ceil(expires_in / interval) polls; poll k starts no earlier than k intervals after the start; a missing interval counts as 5 seconds (section 3.2 of RFC 8628); every poll but the last was pending and the last decides. |
| DevicePoll.WhatReplyMeans | credential/oauth/generic/oauth.go:337-354 | A reply is pending if and only if it is a 400 whose body has `authorization_pending` somewhere, granted if and only if it is under 400 and brings a token, and a failure otherwise. |
| DevicePoll.TimedOutOnIdealClock | credential/oauth/generic/oauth.go:284-293 | The bound is met exactly on an ideal clock, and the last poll starts after the code has expired unless the interval divides the lifetime. |
| DevicePoll.SlowDownIsFailure | credential/oauth/generic/oauth.go:342-347 | A `slow_down` answer is a failure, and so the end of the login. |
| Text.SortForgetsOrder | catalog/catalog.go:180-186 | Sorting makes a listing independent of the order a map was iterated in. |
| Text.LeqIs | catalog/catalog.go:288-302 | The order names are sorted in: by the first character that differs, beginnings first. |
| Text.TrimIs | credential/inject/spec.go:88-98 | What trimming leaves of any text: nothing exactly of one that is all white space, and otherwise what stands between the white space at its ends, the 25 characters written out. |

## Left out

- Wire.Engine.Error: the status of a refusal is modelled, its text and content type are not.
- Wire.Engine.HandleWire: the ingress request's own Content-Length, which the body rewrite updates and nothing reads afterwards, and a handler that answers without a body, are not modelled.
- Ingress.ModelFromMultipart: a form is given as its parts; splitting bytes at boundaries is the library's.
- Relay.CopyResponse: `io.Copy` is one write of the whole body, so how its chunks fall does not show; the first byte after a client failure is where it stops.
- Relay.CopySSE: reading and flushing are instantaneous; a context that ends while a read blocks is seen at the next round.
- Inject.OutRequest.CopyHeaders: asks for canonical header names, which is what the HTTP server delivers.
- Inject.OutRequest.ApplyPreset: the presets of catalog routes; the registry of OAuth presets behind the older `Apply` is not modelled.
- Snapshot.Stream: begins after its first event was written; a stream whose first write fails ends there.
- Refresh.RefreshProfile: runs against the SQL store, and what others do between its read and its writes are whole operations; `RefreshRuns` takes all of them apart into statements. How long it backs off between attempts is not modelled, only that the caller may give up there.
- Drain.Gateway.Await: the five-minute timeout and the shutdown of the two listeners are the choice of taking the deadline.
- Keyring.SQLStore.Create: its two statements in a row; other requests in between are the business of the log lemmas. The random tail is a parameter.
- DevicePoll.LoginDevice: seconds times nanoseconds do not overflow int64 here.
- Sealing, argon2id, JSON, YAML and SQL are ideal: what is sealed opens to itself, a hash accepts its secret only, an empty hash none, and libraries round-trip.
- `decryptData` reading old plaintext rows (`credential/store/sqlite.go:91-101`): it only chooses between two library calls.
- Summaries of credentials and keys (`ListSummaries`, `GetSummary`, `List`): projections of the modelled rows.
- Letter case outside ASCII.
- Wrap-around of the 64-bit round-robin counter, and of expiry arithmetic.
- URL joining, the path-to-wire table, per-vendor adapters: settled by reading one branch each.
- Browser and manual OAuth login, PKCE, the vendor OAuth package: network and randomness.
- HTTP servers, TLS, configuration loading, the CLI beyond the doctor's name sets, and everything in `observability/` beyond the target named in the access log.
