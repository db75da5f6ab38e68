/** Request bodies: finding the model a client asks for, and putting another model's name in its place
    (wire/wire.go). JSON texts are given as what the JSON library makes of them. */
module Ingress {
  import opened Text

  /** A JSON value; only strings and null matter here. */
  datatype Json = JString(text: string) | JNull | JOther(id: nat)

  type Member = (string, Json)

  /** One part of a multipart form; a part may fail to read. */
  datatype Part = Part(form: string, content: Option<string>)

  /** The bytes of a body: the text of a JSON object with its members in order, the text `null`, a multipart form
      that ends properly or not, or anything else. */
  datatype Raw = Object(members: seq<Member>) | NullText | Form(parts: seq<Part>, complete: bool) | Opaque(id: nat)

  // ---------- finding the model ----------

  const MODEL := "model"

  /** The JSON library matches member names to fields ignoring case. */
  predicate NamesModel(key: string) {
    Lower(key) == MODEL
  }

  /** The last member that sets the field: null and values of other types leave it alone. */
  function ModelField(members: seq<Member>): string {
    if members == [] then ""
    else
      var m := members[|members| - 1];
      if NamesModel(m.0) && m.1.JString? then m.1.text else ModelField(members[..|members| - 1])
  }

  /** `readModel`: anything but an object yields no model. */
  function ReadModel(raw: Raw): string {
    if raw.Object? then Trim(ModelField(raw.members)) else ""
  }

  /** The first part named `model`; nothing if it cannot be read or the form breaks off before it. */
  function FormModel(parts: seq<Part>, complete: bool): Option<string> {
    if parts == [] then (if complete then Some("") else None)
    else if parts[0].form == MODEL then
      match parts[0].content
      case None => None
      case Some(text) => Some(Trim(text))
    else FormModel(parts[1..], complete)
  }

  /** What the media type's boundary says about the form. */
  function MultipartModel(raw: Raw, boundary: Option<string>): Option<string> {
    match boundary
    case None => None
    case Some(b) => if b == "" then Some("") else if raw.Form? then FormModel(raw.parts, raw.complete) else None
  }

  /** `modelFromMultipart`: reads parts until the one it is after. */
  method ModelFromMultipart(raw: Raw, boundary: Option<string>) returns (r: Option<string>)
    ensures r == MultipartModel(raw, boundary)
    ensures r.Some? && r.value != "" ==>
              && raw.Form?
              && exists k | 0 <= k < |raw.parts| ::
                   && raw.parts[k].form == MODEL && raw.parts[k].content.Some? && r.value == Trim(raw.parts[k].content.value)
                   && forall j | 0 <= j < k :: raw.parts[j].form != MODEL
  {
    hide Trim;
    if boundary.None? {
      return None;
    }
    if boundary.value == "" {
      return Some("");
    }
    if !raw.Form? {
      return None;
    }
    var i := 0;
    while i < |raw.parts|
      invariant 0 <= i <= |raw.parts|
      invariant forall j | 0 <= j < i :: raw.parts[j].form != MODEL
      invariant FormModel(raw.parts, raw.complete) == FormModel(raw.parts[i..], raw.complete)
    {
      var part := raw.parts[i];
      assert raw.parts[i..][1..] == raw.parts[i + 1..];
      if part.form == MODEL {
        return if part.content.None? then None else Some(Trim(part.content.value));
      }
      i := i + 1;
    }
    r := if raw.complete then Some("") else None;
  }

  // ---------- replacing the model ----------

  /** A JSON object read into a map: the last member of a name wins. */
  function AsMap(members: seq<Member>): (m: map<string, Json>)
    ensures forall k :: k in m <==> exists i | 0 <= i < |members| :: members[i].0 == k
  {
    if members == [] then map[]
    else
      var n := |members| - 1;
      AsMap(members[..n])[members[n].0 := members[n].1]
  }

  /** `json.Marshal` of a map: the members in the order of their names. */
  ghost function Marshal(m: map<string, Json>): seq<Member> {
    var names := SortedNames(m.Keys);
    seq(|names|, i requires 0 <= i < |names| => (assert names[i] in Elements(names); (names[i], m[names[i]])))
  }

  /** What the upstream gets for a body when its model has this name. */
  ghost function ForUpstream(raw: Raw, upstreamModel: string): Raw {
    if upstreamModel == "" || !raw.Object? then raw
    else Object(Marshal(AsMap(raw.members)[MODEL := JString(upstreamModel)]))
  }

  /** `rewriteModelBody`. Writing into the map that `null` unmarshals to would panic. */
  method RewriteModelBody(raw: Raw, upstreamModel: string) returns (out: Raw)
    requires raw == NullText ==> upstreamModel == ""
    ensures out == ForUpstream(raw, upstreamModel)
  {
    hide SortedNames, Sort, AsMap;
    if upstreamModel == "" || !raw.Object? {
      return raw;
    }
    var m := AsMap(raw.members);
    m := m[MODEL := JString(upstreamModel)];
    var order := CollectKeys(m.Keys);
    SortedListing(order, m.Keys);
    var names := Sort(order);
    var members: seq<Member> := [];
    for i := 0 to |names|
      invariant |members| == i && members == Marshal(m)[..i]
    {
      assert names[i] in Elements(names);
      members := members + [(names[i], m[names[i]])];
    }
    out := Object(members);
    assert Marshal(m)[..|names|] == Marshal(m);
  }

  // ---------- what the replacement keeps ----------

  lemma MarshalMembers(m: map<string, Json>)
    ensures forall i | 0 <= i < |Marshal(m)| :: Marshal(m)[i].0 in m && Marshal(m)[i].1 == m[Marshal(m)[i].0]
    ensures forall k | k in m :: exists i | 0 <= i < |Marshal(m)| :: Marshal(m)[i].0 == k
    ensures forall i, j | 0 <= i < j < |Marshal(m)| ::
              Leq(Marshal(m)[i].0, Marshal(m)[j].0) && Marshal(m)[i].0 != Marshal(m)[j].0
  {
    hide SortedNames, Leq;
    var names := SortedNames(m.Keys);
    SortedNamesDistinct(m.Keys);
    forall i | 0 <= i < |names| ensures names[i] in m {
      assert names[i] in Elements(names);
    }
    forall k | k in m ensures exists i | 0 <= i < |Marshal(m)| :: Marshal(m)[i].0 == k {
      assert k in Elements(names);
      var i :| 0 <= i < |names| && names[i] == k;
      assert Marshal(m)[i].0 == k;
    }
  }

  lemma SortedNamesDistinct(names: set<string>)
    ensures Distinct(SortedNames(names))
  {
    hide Sort;
    SortDistinct(ListingOf(names));
  }

  lemma {:induction false} AsMapOfDistinct(members: seq<Member>, m: map<string, Json>)
    requires forall i | 0 <= i < |members| :: members[i].0 in m && members[i].1 == m[members[i].0]
    requires forall k | k in m :: exists i | 0 <= i < |members| :: members[i].0 == k
    ensures AsMap(members) == m
  {
    AsMapValues(members, m);
    assert AsMap(members).Keys == m.Keys;
  }

  lemma {:induction false} AsMapValues(members: seq<Member>, m: map<string, Json>)
    requires forall i | 0 <= i < |members| :: members[i].0 in m && members[i].1 == m[members[i].0]
    ensures forall k | k in AsMap(members) :: k in m && AsMap(members)[k] == m[k]
  {
    if members != [] {
      AsMapValues(members[..|members| - 1], m);
    }
  }

  /** Only `model` is replaced: the rewritten body has each name once, `model` with the upstream's name, and every
      other name with the value the client's object gave it. */
  lemma OnlyModelReplaced(members: seq<Member>, upstreamModel: string)
    requires upstreamModel != ""
    ensures var out := ForUpstream(Object(members), upstreamModel);
            && out.Object?
            && AsMap(out.members) == AsMap(members)[MODEL := JString(upstreamModel)]
            && forall i, j | 0 <= i < j < |out.members| :: out.members[i].0 != out.members[j].0
  {
    hide AsMap, Marshal;
    var m := AsMap(members)[MODEL := JString(upstreamModel)];
    MarshalMembers(m);
    AsMapOfDistinct(Marshal(m), m);
  }

  /** Rewriting for one target and then another is rewriting for the other alone. */
  lemma RewriteTwice(raw: Raw, a: string, b: string)
    requires b != ""
    ensures ForUpstream(ForUpstream(raw, a), b) == ForUpstream(raw, b)
  {
    hide AsMap, Marshal;
    if raw.Object? && a != "" {
      OnlyModelReplaced(raw.members, a);
      var m := AsMap(raw.members);
      assert m[MODEL := JString(a)][MODEL := JString(b)] == m[MODEL := JString(b)];
    }
  }

  // ---------- reading the replacement back ----------

  /** Upper case sorts first: of all spellings of a name, the lower-case one is the last. */
  lemma {:induction false} LowerIsGreatest(s: string)
    ensures Leq(s, Lower(s))
  {
    if s != [] {
      LowerIsGreatest(s[1..]);
      assert Lower(s)[1..] == Lower(s[1..]);
    }
  }

  lemma {:induction false} FieldAt(members: seq<Member>, i: nat)
    requires i < |members| && NamesModel(members[i].0) && members[i].1.JString?
    requires forall j | i < j < |members| :: !NamesModel(members[j].0)
    ensures ModelField(members) == members[i].1.text
  {
    hide NamesModel;
    if i < |members| - 1 {
      FieldAt(members[..|members| - 1], i);
    }
  }

  /** A reader that ignores case, like the gateway itself, finds the upstream's name in the rewritten body, whatever
      other spellings of `model` the client sent along. */
  lemma ReadsBack(members: seq<Member>, upstreamModel: string)
    requires upstreamModel != ""
    ensures ReadModel(ForUpstream(Object(members), upstreamModel)) == Trim(upstreamModel)
  {
    hide AsMap, Marshal, Leq, Trim, Lower;
    var m := AsMap(members)[MODEL := JString(upstreamModel)];
    var out := Marshal(m);
    MarshalMembers(m);
    assert MODEL in m;
    var i :| 0 <= i < |out| && out[i].0 == MODEL;
    assert NamesModel(MODEL);
    forall j | i < j < |out| ensures !NamesModel(out[j].0) {
      LowerIsGreatest(out[j].0);
      if NamesModel(out[j].0) {
        LeqAntisymmetric(out[j].0, MODEL);
        assert false;
      }
    }
    FieldAt(out, i);
  }
}
