/** The gateway in front of MLflow (tracking.py, `enforce_creator`): it stamps the creator tag on every new run,
    model, model version and logged model, and refuses requests that would change it. */
module Tracking {
  import opened Wrappers
  import opened JsonValues
  import opened Text

  datatype Verb = Get | Head | Options | Post | Put | Patch | Delete

  /** A request body with what the two parsers make of it: its JSON value, and for the "query" text in it the list
      of operation definitions, each a read-only query or not. */
  datatype Body = Body(json: Option<Json>, readOnlyOperations: Option<seq<bool>>)

  datatype Error = BadRequest | Forbidden | Unauthorized

  datatype Outcome = Forward(body: Body) | Reject(error: Error)

  const PREFIX := "api/2.0/mlflow/"
  const ARTIFACTS := "api/2.0/mlflow-artifacts/"

  /** Browser endpoints obey the rules of the REST endpoints they mirror. */
  function Canonical(path: string): string {
    var p := Trim(path);
    if "ajax-api/" <= p then p[5..] else p
  }

  predicate Ambiguous(p: string) {
    (p != "" && exists part :: part in Split(p) && (part == "" || part == "." || part == "..")) || '%' in p || '\\' in p
  }

  predicate ReadsTraces(p: string) {
    p in {"api/3.0/mlflow/traces/search", "api/3.0/mlflow/traces/batchGetInfos",
          "api/3.0/mlflow/traces/calculate-filter-correlation", "api/3.0/mlflow/traces/metrics"}
  }

  predicate Creates(action: string) { action in {"runs/create", "registered-models/create", "model-versions/create"} }

  predicate Protected(action: string) {
    Creates(action)
    || action in {"runs/set-tag", "runs/delete-tag", "runs/log-batch", "registered-models/set-tag", "registered-models/delete-tag",
                  "model-versions/set-tag", "model-versions/delete-tag"}
  }

  function WithoutCreator(tags: seq<Json>): seq<Json> {
    if tags == [] then []
    else if HasKey(tags[0], CREATOR_TAG) then WithoutCreator(tags[1..])
    else [tags[0]] + WithoutCreator(tags[1..])
  }

  function CreatorTag(email: string): Json { Obj(map["key" := Str(CREATOR_TAG), "value" := Str(email)]) }

  /** The payload of a creation with the caller as its only creator. */
  function Stamped(action: string, fields: map<string, Json>, tags: seq<Json>, email: string): Json {
    var tagged := fields["tags" := Arr(WithoutCreator(tags) + [CreatorTag(email)])];
    Obj(if action in {"runs/create", "model-versions/create"} then tagged["user_id" := Str(email)] else tagged)
  }

  function EnforceTags(action: string, verb: Verb, body: Body, email: Option<Json>): Outcome {
    if body.json.None? || !body.json.value.Obj? then Reject(BadRequest)
    else
      var fields := body.json.value.fields;
      var tags := Field(fields, "tags").GetOr(Arr([]));
      if !tags.Arr? || (exists tag :: tag in tags.items && !tag.Obj?) then Reject(BadRequest)
      else if Creates(action) || (action == "logged-models" && verb == Post) then
        if email.None? || !email.value.Str? || email.value.s == "" then Reject(Unauthorized)
        else Forward(Body(Some(Stamped(action, fields, tags.items, email.value.s)), body.readOnlyOperations))
      else if PayloadNames(body.json.value, CREATOR_TAG) then Reject(Forbidden)
      else Forward(body)
  }

  /** The REST interface: everything below the prefix. */
  function EnforceAction(action: string, verb: Verb, body: Body, email: Option<Json>): Outcome {
    if EndsWith(action, "/tags/" + CREATOR_TAG) then Reject(Forbidden)
    else if Protected(action) || action == "logged-models" || EndsWith(action, "/tags") then EnforceTags(action, verb, body, email)
    else Forward(body)
  }

  /** How a path is routed, here and by the server. */
  datatype Route = Traces | GraphQL | Artifacts | Action(action: string) | Elsewhere

  function RouteOf(p: string): Route {
    if ReadsTraces(p) then Traces
    else if p in {"graphql", PREFIX + "graphql"} then GraphQL
    else if ARTIFACTS <= p then Artifacts
    else if PREFIX <= p then Action(p[|PREFIX|..])
    else Elsewhere
  }

  function EnforceCreator(path: string, verb: Verb, body: Body, email: Option<Json>): Outcome {
    var p := Canonical(path);
    if Ambiguous(p) then Reject(BadRequest)
    else if verb in {Get, Head, Options} then Forward(body)
    else
      match RouteOf(p)
      case Traces => if verb == Post then Forward(body) else Reject(Forbidden)
      case GraphQL =>
        if body.json.None? || body.readOnlyOperations.None? then Reject(BadRequest)
        else if false in body.readOnlyOperations.value then Reject(Forbidden)
        else Forward(body)
      case Artifacts => Forward(body)
      case Action(action) => EnforceAction(action, verb, body, email)
      case Elsewhere => Reject(Forbidden)
  }

  // ---------- The server behind the gateway ----------

  datatype Kind = Run | RegisteredModel | ModelVersion | LoggedModel

  /** A stored tag; several with one key are allowed here, so that "exactly one" says something. */
  datatype Tag = Tag(key: string, value: string)

  datatype Entity = Entity(kind: Kind, tags: seq<Tag>)

  type Server = map<nat, Entity>

  function ValuesOf(tags: seq<Tag>, key: string): seq<string> {
    if tags == [] then [] else (if tags[0].key == key then [tags[0].value] else []) + ValuesOf(tags[1..], key)
  }

  predicate IsTag(tag: Json) {
    tag.Obj? && Field(tag.fields, "key").Some? && tag.fields["key"].Str? && Field(tag.fields, "value").Some? && tag.fields["value"].Str?
  }

  function ReadTag(tag: Json): Tag
    requires IsTag(tag)
  {
    Tag(tag.fields["key"].s, tag.fields["value"].s)
  }

  function ReadTags(items: seq<Json>): seq<Tag>
    requires forall tag :: tag in items ==> IsTag(tag)
  {
    if items == [] then [] else [ReadTag(items[0])] + ReadTags(items[1..])
  }

  /** The server adds one entity with the tags of the payload, of which it keeps every creator tag, or refuses. */
  ghost predicate CreatesEntity(s: Server, t: Server, kind: Kind, body: Body) {
    s == t
    || (exists id: nat, tags ::
          && id !in s && t == s[id := Entity(kind, tags)]
          && body.json.Some? && body.json.value.Obj?
          && var sent := Field(body.json.value.fields, "tags").GetOr(Arr([]));
          && sent.Arr? && (forall tag :: tag in sent.items ==> IsTag(tag))
          && ValuesOf(tags, CREATOR_TAG) == ValuesOf(ReadTags(sent.items), CREATOR_TAG))
  }

  /** Actions whose payload says which tags to set or delete. */
  ghost predicate TagsByPayload(action: string) {
    || action in {"runs/set-tag", "runs/delete-tag", "runs/log-batch", "registered-models/set-tag",
                  "registered-models/delete-tag", "model-versions/set-tag", "model-versions/delete-tag"}
    || (exists id :: action == "logged-models/" + id + "/tags")
  }

  /** The action that deletes one tag of a logged model says so in its path. */
  ghost predicate TagByPath(action: string, key: string) {
    exists id :: action == "logged-models/" + id + "/tags/" + key
  }

  /** A tag key that a request names: in its payload, in the payload's tags, or at the end of its path. */
  ghost predicate Names(action: string, body: Body, key: string) {
    || (TagsByPayload(action) && body.json.Some? && PayloadNames(body.json.value, key))
    || TagByPath(action, key)
  }

  predicate PayloadNames(v: Json, key: string) {
    HasKey(v, key)
    || (v.Obj? && var tags := Field(v.fields, "tags").GetOr(Arr([])); tags.Arr? && exists tag :: tag in tags.items && HasKey(tag, key))
  }

  /** The server changes the tags of one entity, under keys that the request names. */
  ghost predicate ChangesTags(s: Server, t: Server, action: string, body: Body) {
    s == t
    || (exists id, tags ::
          && id in s && t == s[id := s[id].(tags := tags)]
          && forall key :: ValuesOf(tags, key) == ValuesOf(s[id].tags, key) || Names(action, body, key))
  }

  /** Requests that are no tag changes may delete entities, and may change tags other than the creator's: renaming a
      run changes the tag that holds its name. */
  ghost predicate KeepsCreators(s: Server, t: Server) {
    forall id :: id in t ==>
      id in s && t[id].kind == s[id].kind && ValuesOf(t[id].tags, CREATOR_TAG) == ValuesOf(s[id].tags, CREATOR_TAG)
  }

  function CreatedKind(action: string): Option<Kind> {
    match action
    case "runs/create" => Some(Run)
    case "registered-models/create" => Some(RegisteredModel)
    case "model-versions/create" => Some(ModelVersion)
    case "logged-models" => Some(LoggedModel)
    case _ => None
  }

  ghost predicate ServesAction(s: Server, t: Server, action: string, verb: Verb, body: Body) {
    if verb == Post && CreatedKind(action).Some? then CreatesEntity(s, t, CreatedKind(action).value, body)
    else if TagsByPayload(action) || (exists key :: TagByPath(action, key)) then ChangesTags(s, t, action, body)
    else KeepsCreators(s, t)
  }

  /** What the server may do with a request that reaches it.  Outside the REST interface, and for mutations, nothing
      is known. */
  ghost predicate Serves(s: Server, t: Server, path: string, verb: Verb, body: Body) {
    if verb in {Get, Head, Options} then s == t
    else
      match RouteOf(Canonical(path))
      case Traces => verb == Post ==> s == t
      case GraphQL => body.readOnlyOperations.Some? && false !in body.readOnlyOperations.value ==> s == t
      case Artifacts => s == t
      case Action(action) => ServesAction(s, t, action, verb, body)
      case Elsewhere => true
  }

  datatype Request = Request(path: string, verb: Verb, body: Body, email: Option<Json>)

  /** The server, and who created each of its entities. */
  datatype System = System(server: Server, creators: map<nat, string>)

  /** Existing entities keep their recorded creator, and a new one gets the caller. */
  ghost predicate Records(a: System, b: System, email: Option<Json>) {
    && (forall id :: id in a.server && id in b.server ==>
          id in a.creators && id in b.creators && b.creators[id] == a.creators[id])
    && (forall id :: id in b.server && id !in a.server ==> id in b.creators && email == Some(Str(b.creators[id])))
  }

  /** One request through the gateway: refused there, or served as the gateway rewrote it. */
  ghost predicate Step(a: System, b: System, r: Request) {
    match EnforceCreator(r.path, r.verb, r.body, r.email)
    case Reject(_) => a == b
    case Forward(body) => Serves(a.server, b.server, r.path, r.verb, body) && Records(a, b, r.email)
  }

  /** Every entity has exactly one creator tag, the address of whoever created it. */
  ghost predicate Attributed(a: System) {
    forall id :: id in a.server ==> id in a.creators && ValuesOf(a.server[id].tags, CREATOR_TAG) == [a.creators[id]]
  }

  ghost predicate History(trace: seq<System>, requests: seq<Request>) {
    |trace| == |requests| + 1 && forall i :: 0 <= i < |requests| ==> Step(trace[i], trace[i + 1], requests[i])
  }

  lemma {:induction false} ReadSplits(a: seq<Json>, b: seq<Json>)
    requires forall tag :: tag in a + b ==> IsTag(tag)
    ensures (forall tag :: tag in a ==> IsTag(tag)) && (forall tag :: tag in b ==> IsTag(tag))
    ensures ValuesOf(ReadTags(a + b), CREATOR_TAG) == ValuesOf(ReadTags(a), CREATOR_TAG) + ValuesOf(ReadTags(b), CREATOR_TAG)
  {
    assert forall tag :: tag in a ==> tag in a + b;
    assert forall tag :: tag in b ==> tag in a + b;
    if a == [] {
      assert a + b == b;
    } else {
      assert (a + b)[0] == a[0] && (a + b)[1..] == a[1..] + b;
      ReadSplits(a[1..], b);
    }
  }

  lemma {:induction false} WithoutCreatorHasNone(tags: seq<Json>)
    ensures forall tag :: tag in WithoutCreator(tags) ==> tag in tags && !HasKey(tag, CREATOR_TAG)
  {
    if tags != [] { WithoutCreatorHasNone(tags[1..]); }
  }

  lemma {:induction false} NoneRead(tags: seq<Json>)
    requires forall tag :: tag in tags ==> IsTag(tag) && !HasKey(tag, CREATOR_TAG)
    ensures ValuesOf(ReadTags(tags), CREATOR_TAG) == []
  {
    if tags != [] {
      assert tags[0] in tags && ReadTag(tags[0]).key != CREATOR_TAG;
      NoneRead(tags[1..]);
      assert ReadTags(tags)[1..] == ReadTags(tags[1..]);
    }
  }

  /** However many creators a payload claims, the server reads exactly the caller from a stamped one. */
  lemma StampedOnce(tags: seq<Json>, email: string)
    requires forall tag :: tag in WithoutCreator(tags) + [CreatorTag(email)] ==> IsTag(tag)
    ensures ValuesOf(ReadTags(WithoutCreator(tags) + [CreatorTag(email)]), CREATOR_TAG) == [email]
  {
    var rest, last := WithoutCreator(tags), [CreatorTag(email)];
    ReadSplits(rest, last);
    WithoutCreatorHasNone(tags);
    NoneRead(rest);
    assert ReadTags(last) == [Tag(CREATOR_TAG, email)] && ReadTags(last)[1..] == [];
  }

  lemma TagActionsAreChecked(action: string)
    requires TagsByPayload(action)
    ensures Protected(action) || EndsWith(action, "/tags")
    ensures !Creates(action) && action != "logged-models" && !EndsWith(action, "/tags/" + CREATOR_TAG)
  {
    if id :| action == "logged-models/" + id + "/tags" {
      assert action == ("logged-models/" + id) + "/tags";
      assert action[|action| - 1] == 's' && action[|action| - 2] == 'g';
    } else {
      assert action[|action| - 1] in {'g', 'h'};
    }
  }

  /** A payload that passes the gateway to a tag-changing action does not name the creator tag. */
  lemma PassedPayload(action: string, verb: Verb, body: Body, email: Option<Json>)
    requires EnforceAction(action, verb, body, email).Forward? && TagsByPayload(action)
    requires !(CreatedKind(action).Some? && verb == Post)
    ensures EnforceAction(action, verb, body, email).body == body
    ensures body.json.Some? ==> !PayloadNames(body.json.value, CREATOR_TAG)
  {
    if !Protected(action) {
      var id :| action == "logged-models/" + id + "/tags";
      assert EndsWith(action, "/tags");
    }
  }

  /** The creation that reaches the server carries exactly the caller's address. */
  lemma PassedCreation(s: Server, t: Server, action: string, body: Body, email: Option<Json>)
    requires CreatedKind(action).Some? && EnforceAction(action, Post, body, email).Forward?
    requires CreatesEntity(s, t, CreatedKind(action).value, EnforceAction(action, Post, body, email).body)
    ensures forall id :: id in s ==> id in t && t[id] == s[id]
    ensures forall id :: id in t && id !in s ==>
              email.Some? && email.value.Str? && ValuesOf(t[id].tags, CREATOR_TAG) == [email.value.s]
  {
    assert EnforceAction(action, Post, body, email) == EnforceTags(action, Post, body, email);
    var fields := body.json.value.fields;
    var items := Field(fields, "tags").GetOr(Arr([])).items;
    var sent := WithoutCreator(items) + [CreatorTag(email.value.s)];
    var out := EnforceTags(action, Post, body, email).body.json.value;
    assert out == Stamped(action, fields, items, email.value.s);
    assert Field(out.fields, "tags") == Some(Arr(sent));
    if s != t {
      StampedOnce(items, email.value.s);
    }
  }

  lemma PathEnds(action: string, key: string)
    ensures TagByPath(action, key) ==> EndsWith(action, "/tags/" + key)
  {
  }

  /** A tag change that reaches the server leaves every creator tag alone. */
  lemma PassedChange(s: Server, t: Server, action: string, verb: Verb, body: Body, email: Option<Json>)
    requires EnforceAction(action, verb, body, email).Forward? && !(CreatedKind(action).Some? && verb == Post)
    requires ChangesTags(s, t, action, EnforceAction(action, verb, body, email).body)
    ensures forall id :: id in t ==> id in s && ValuesOf(t[id].tags, CREATOR_TAG) == ValuesOf(s[id].tags, CREATOR_TAG)
  {
    var out := EnforceAction(action, verb, body, email).body;
    PathEnds(action, CREATOR_TAG);
    if TagsByPayload(action) { PassedPayload(action, verb, body, email); }
    assert !Names(action, out, CREATOR_TAG);
  }

  lemma ActionAttributes(a: System, b: System, action: string, verb: Verb, body: Body, email: Option<Json>)
    requires Attributed(a) && EnforceAction(action, verb, body, email).Forward?
    requires ServesAction(a.server, b.server, action, verb, EnforceAction(action, verb, body, email).body)
    requires Records(a, b, email)
    ensures Attributed(b)
  {
    if verb == Post && CreatedKind(action).Some? {
      PassedCreation(a.server, b.server, action, body, email);
    } else if TagsByPayload(action) || exists key :: TagByPath(action, key) {
      PassedChange(a.server, b.server, action, verb, body, email);
    }
  }

  /** No request, by anyone, makes an entity lose or change its creator. */
  lemma StepAttributes(a: System, b: System, r: Request)
    requires Attributed(a) && Step(a, b, r)
    ensures Attributed(b)
    ensures forall id :: id in a.server && id in b.server ==> b.creators[id] == a.creators[id]
  {
    if EnforceCreator(r.path, r.verb, r.body, r.email).Forward? && r.verb !in {Get, Head, Options} {
      match RouteOf(Canonical(r.path)) {
        case Action(action) => ActionAttributes(a, b, action, r.verb, r.body, r.email);
        case _ =>
      }
    }
  }

  lemma {:induction false} Always(trace: seq<System>, requests: seq<Request>, n: nat)
    requires History(trace, requests) && Attributed(trace[0]) && n < |trace|
    ensures Attributed(trace[n])
  {
    if n > 0 {
      Always(trace, requests, n - 1);
      StepAttributes(trace[n - 1], trace[n], requests[n - 1]);
    }
  }

  /** Creators are immutable over every sequence of requests. */
  lemma {:induction false} CreatorsAreImmutable(trace: seq<System>, requests: seq<Request>, i: nat, j: nat, id: nat)
    requires History(trace, requests) && Attributed(trace[0]) && i <= j < |trace|
    requires forall k :: i <= k <= j ==> id in trace[k].server
    ensures id in trace[i].creators && id in trace[j].creators && trace[j].creators[id] == trace[i].creators[id]
    ensures ValuesOf(trace[j].server[id].tags, CREATOR_TAG) == [trace[i].creators[id]]
    decreases j
  {
    Always(trace, requests, i);
    Always(trace, requests, j);
    if i < j {
      CreatorsAreImmutable(trace, requests, i, j - 1, id);
      Always(trace, requests, j - 1);
      NextCreator(trace[j - 1], trace[j], requests[j - 1], id);
    }
  }

  lemma NextCreator(a: System, b: System, r: Request, id: nat)
    requires Attributed(a) && Step(a, b, r) && id in a.server && id in b.server
    ensures id in a.creators && id in b.creators && b.creators[id] == a.creators[id]
  {
  }

  // ---------- The gateway changes and refuses nothing else ----------

  lemma {:induction false} WithoutCreatorAgain(tags: seq<Json>, email: string)
    ensures WithoutCreator(WithoutCreator(tags) + [CreatorTag(email)]) == WithoutCreator(tags)
  {
    if tags != [] {
      WithoutCreatorAgain(tags[1..], email);
      if !HasKey(tags[0], CREATOR_TAG) {
        var all := WithoutCreator(tags) + [CreatorTag(email)];
        assert all[1..] == WithoutCreator(tags[1..]) + [CreatorTag(email)];
      }
    } else {
      assert WithoutCreator([CreatorTag(email)]) == [];
    }
  }

  /** The parts of a payload that a creation leaves alone. */
  ghost predicate SameButCreator(a: map<string, Json>, b: map<string, Json>) {
    && (forall name :: name !in {"tags", "user_id"} ==> Field(a, name) == Field(b, name))
    && Field(a, "tags").GetOr(Arr([])).Arr? && Field(b, "tags").GetOr(Arr([])).Arr?
    && WithoutCreator(Field(a, "tags").GetOr(Arr([])).items) == WithoutCreator(Field(b, "tags").GetOr(Arr([])).items)
  }

  /** Stamping keeps the rest of the payload, the other tags in their order, and is idempotent. */
  lemma StampedFaithfully(action: string, fields: map<string, Json>, email: string)
    requires Field(fields, "tags").GetOr(Arr([])).Arr?
    ensures var items := Field(fields, "tags").GetOr(Arr([])).items;
            var out := Stamped(action, fields, items, email).fields;
            && SameButCreator(fields, out)
            && "tags" in out && out["tags"].Arr?
            && Field(out, "user_id") == (if action in {"runs/create", "model-versions/create"} then Some(Str(email)) else Field(fields, "user_id"))
            && Stamped(action, out, out["tags"].items, email) == Obj(out)
  {
    var items := Field(fields, "tags").GetOr(Arr([])).items;
    WithoutCreatorAgain(items, email);
    var out := Stamped(action, fields, items, email).fields;
    assert out["tags"] == Arr(WithoutCreator(items) + [CreatorTag(email)]);
    assert Stamped(action, out, out["tags"].items, email).fields == out;
  }

  /** A forwarded body is the caller's own, but for the creator tag and the legacy field of a creation, and the
      gateway would forward the result unchanged. */
  lemma ForwardedFaithfully(action: string, verb: Verb, body: Body, email: Option<Json>)
    requires EnforceTags(action, verb, body, email).Forward?
    ensures var out := EnforceTags(action, verb, body, email).body;
            && EnforceTags(action, verb, out, email) == Forward(out)
            && out.json.Some? && out.json.value.Obj? && body.json.Some? && body.json.value.Obj?
            && (if Creates(action) || (action == "logged-models" && verb == Post)
                then SameButCreator(body.json.value.fields, out.json.value.fields) else out == body)
  {
    if Creates(action) || (action == "logged-models" && verb == Post) {
      var fields := body.json.value.fields;
      var items := Field(fields, "tags").GetOr(Arr([])).items;
      StampedFaithfully(action, fields, email.value.s);
      WithoutCreatorHasNone(items);
    }
  }

  /** The request creates an entity, as the server routes it. */
  predicate IsCreation(path: string, verb: Verb) {
    && verb !in {Get, Head, Options} && RouteOf(Canonical(path)).Action?
    && var action := RouteOf(Canonical(path)).action; Creates(action) || (action == "logged-models" && verb == Post)
  }

  /** Whatever the path, the method, the body and the caller: what is forwarded is the caller's own body, but for the
      creator tag and the legacy field of a creation. */
  lemma ForwardsTheBody(path: string, verb: Verb, body: Body, email: Option<Json>)
    requires EnforceCreator(path, verb, body, email).Forward?
    ensures var out := EnforceCreator(path, verb, body, email).body;
            if IsCreation(path, verb) then
              && out.json.Some? && out.json.value.Obj? && body.json.Some? && body.json.value.Obj?
              && SameButCreator(body.json.value.fields, out.json.value.fields)
              && out.readOnlyOperations == body.readOnlyOperations
              && email.Some? && email.value.Str? && email.value.s != ""
              && (RouteOf(Canonical(path)).action in {"runs/create", "model-versions/create"} ==>
                    Field(out.json.value.fields, "user_id") == email)
            else out == body
  {
    if RouteOf(Canonical(path)).Action? && verb !in {Get, Head, Options} {
      var action := RouteOf(Canonical(path)).action;
      if Protected(action) || action == "logged-models" || EndsWith(action, "/tags") {
        ForwardedFaithfully(action, verb, body, email);
        if IsCreation(path, verb) { CreationKeepsOperations(action, verb, body, email); }
      }
    }
  }

  lemma CreationKeepsOperations(action: string, verb: Verb, body: Body, email: Option<Json>)
    requires EnforceTags(action, verb, body, email).Forward? && (Creates(action) || (action == "logged-models" && verb == Post))
    ensures var out := EnforceTags(action, verb, body, email).body;
            && out.readOnlyOperations == body.readOnlyOperations && email.Some? && email.value.Str? && email.value.s != ""
            && out.json.Some? && out.json.value.Obj?
            && (action in {"runs/create", "model-versions/create"} ==> Field(out.json.value.fields, "user_id") == email)
  {
    var fields := body.json.value.fields;
    StampedFaithfully(action, fields, email.value.s);
  }

  /** Reading requests, artifacts, and every action that neither creates nor changes tags pass as they are. */
  lemma OtherRequestsPass(path: string, verb: Verb, body: Body, email: Option<Json>)
    requires !Ambiguous(Canonical(path))
    ensures verb in {Get, Head, Options} ==> EnforceCreator(path, verb, body, email) == Forward(body)
    ensures RouteOf(Canonical(path)) == Artifacts ==> EnforceCreator(path, verb, body, email) == Forward(body)
    ensures RouteOf(Canonical(path)).Action? ==>
              var action := RouteOf(Canonical(path)).action;
              !Protected(action) && action != "logged-models" && !EndsWith(action, "/tags") && !EndsWith(action, "/tags/" + CREATOR_TAG)
              ==> EnforceCreator(path, verb, body, email) == Forward(body)
  {
  }

  /** How paths are routed, in literal terms. */
  lemma RoutesAre(p: string, rest: string)
    ensures rest != "graphql" ==> RouteOf("api/2.0/mlflow/" + rest) == Action(rest)
    ensures RouteOf("api/2.0/mlflow-artifacts/" + rest) == Artifacts
    ensures RouteOf(p) == GraphQL <==> p in {"graphql", "api/2.0/mlflow/graphql"}
    ensures RouteOf(p) == Traces <==>
            p in {"api/3.0/mlflow/traces/search", "api/3.0/mlflow/traces/batchGetInfos",
                  "api/3.0/mlflow/traces/calculate-filter-correlation", "api/3.0/mlflow/traces/metrics"}
    ensures RouteOf(p) == Elsewhere ==> !("api/2.0/mlflow/" <= p) && !("api/2.0/mlflow-artifacts/" <= p)
  {
    if rest != "graphql" { RestRoute(rest); }
    ArtifactRoute(rest);
    GraphRoute(p);
  }

  lemma GraphRoute(p: string)
    ensures RouteOf(p) == GraphQL <==> p in {"graphql", "api/2.0/mlflow/graphql"}
  {
    assert PREFIX + "graphql" == "api/2.0/mlflow/graphql";
    assert "api/2.0/mlflow/graphql"[4] == '2' && "graphql"[0] == 'g';
    NoTraces("api/2.0/mlflow/graphql");
  }

  lemma RestRoute(rest: string)
    requires rest != "graphql"
    ensures RouteOf("api/2.0/mlflow/" + rest) == Action(rest)
  {
    var p := "api/2.0/mlflow/" + rest;
    assert p[|PREFIX|..] == rest && p[0] == 'a' && p[14] == '/';
    assert "api/2.0/mlflow-artifacts/"[14] == '-' && "graphql"[0] == 'g';
    NoTraces(p);
    assert (PREFIX + "graphql")[|PREFIX|..] == "graphql";
  }

  lemma NoTraces(p: string)
    requires |p| > 4 && p[4] == '2'
    ensures !ReadsTraces(p)
  {
  }

  lemma ArtifactRoute(rest: string)
    ensures RouteOf("api/2.0/mlflow-artifacts/" + rest) == Artifacts
  {
    var p := "api/2.0/mlflow-artifacts/" + rest;
    assert ARTIFACTS <= p && p[4] == '2' && p[14] == '-' && p[0] == 'a';
    assert "api/3.0/mlflow/traces/search"[4] == '3' && (PREFIX + "graphql")[14] == '/';
  }

  /** Nothing passes on a path with an escape, a backslash, or a part that is empty or climbs; else, reading does. */
  lemma PathsAreChecked(path: string, verb: Verb, body: Body, email: Option<Json>)
    requires verb in {Get, Head, Options} || EnforceCreator(path, verb, body, email).Forward?
    ensures var p := Canonical(path);
            EnforceCreator(path, verb, body, email).Forward? <==>
              '%' !in p && '\\' !in p && (p == "" || ("" !in Split(p) && "." !in Split(p) && ".." !in Split(p)))
  {
    AmbiguousExactly(Canonical(path));
  }

  lemma AmbiguousExactly(p: string)
    ensures Ambiguous(p) <==>
            '%' in p || '\\' in p || (p != "" && ("" in Split(p) || "." in Split(p) || ".." in Split(p)))
  {
  }

  /** The browser's endpoints are those of the REST interface, slashes at the ends do not matter. */
  lemma BrowserEndpoints(rest: string)
    requires rest != "" && rest[|rest| - 1] != '/'
    ensures Canonical("ajax-api/" + rest) == Canonical("/ajax-api/" + rest) == "api/" + rest
    ensures Canonical("api/" + rest) == "api/" + rest
  {
    BrowserEndpoint(rest);
    var s := "/ajax-api/" + rest;
    assert s[1..] == "ajax-api/" + rest;
  }

  lemma BrowserEndpoint(rest: string)
    requires rest != "" && rest[|rest| - 1] != '/'
    ensures Canonical("ajax-api/" + rest) == "api/" + rest && Canonical("api/" + rest) == "api/" + rest
    ensures Trim("ajax-api/" + rest) == "ajax-api/" + rest
  {
    var s, t := "ajax-api/" + rest, "api/" + rest;
    assert s[0] == 'a' && t[0] == 'a' && s[|s| - 1] == rest[|rest| - 1] == t[|t| - 1];
    assert s[5..] == t && t[1] == 'p' && "ajax-api/"[1] == 'j';
  }

  /** What does not reach the REST interface, the artifacts, a read of traces or a read-only query never passes. */
  lemma OtherWritesAreRefused(path: string, verb: Verb, body: Body, email: Option<Json>)
    requires verb !in {Get, Head, Options} && EnforceCreator(path, verb, body, email).Forward?
    ensures match RouteOf(Canonical(path))
            case Traces => verb == Post
            case GraphQL => body.readOnlyOperations.Some? && false !in body.readOnlyOperations.value
            case Artifacts => true
            case Action(_) => true
            case Elsewhere => false
    ensures !Ambiguous(Canonical(path))
  {
  }

  /** A creation passes exactly when it is a JSON object whose tags are a list of objects, from a caller with an address. */
  lemma CreationsPassExactly(action: string, verb: Verb, body: Body, email: Option<Json>)
    requires Creates(action) || (action == "logged-models" && verb == Post)
    ensures EnforceAction(action, verb, body, email).Forward? <==>
              && body.json.Some? && body.json.value.Obj? && email.Some? && email.value.Str? && email.value.s != ""
              && var tags := Field(body.json.value.fields, "tags").GetOr(Arr([])); tags.Arr? && forall tag :: tag in tags.items ==> tag.Obj?
  {
    CreationIsChecked(action, verb, body, email);
    PassesTagsExactly(action, verb, body, email);
  }

  lemma CreationIsChecked(action: string, verb: Verb, body: Body, email: Option<Json>)
    requires Creates(action) || action == "logged-models"
    ensures EnforceAction(action, verb, body, email) == EnforceTags(action, verb, body, email)
  {
    CreationIsNoTagPath(action);
  }

  lemma PassesTagsExactly(action: string, verb: Verb, body: Body, email: Option<Json>)
    requires Creates(action) || (action == "logged-models" && verb == Post)
    ensures EnforceTags(action, verb, body, email).Forward? <==>
              && body.json.Some? && body.json.value.Obj? && email.Some? && email.value.Str? && email.value.s != ""
              && var tags := Field(body.json.value.fields, "tags").GetOr(Arr([])); tags.Arr? && forall tag :: tag in tags.items ==> tag.Obj?
  {
  }

  lemma CreationIsNoTagPath(action: string)
    requires Creates(action) || action == "logged-models"
    ensures !EndsWith(action, "/tags/" + CREATOR_TAG)
  {
    assert action[|action| - 1] in {'e', 's'};
  }

  /** Of the well-formed tag changes, exactly those that name the creator tag are refused. */
  lemma RefusedExactly(action: string, verb: Verb, body: Body, email: Option<Json>)
    requires TagsByPayload(action)
    requires body.json.Some? && body.json.value.Obj?
    requires var tags := Field(body.json.value.fields, "tags").GetOr(Arr([])); tags.Arr? && forall tag :: tag in tags.items ==> tag.Obj?
    ensures EnforceAction(action, verb, body, email) ==
            if PayloadNames(body.json.value, CREATOR_TAG) then Reject(Forbidden) else Forward(body)
  {
    TagActionsAreChecked(action);
  }
}
