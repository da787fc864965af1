/** The response side of the MLflow gateway (tracking.py, `expose_creator`): the creator tag of a model version is
    copied into its legacy user_id field, anywhere in the JSON tree. */
module CreatorFields {
  import opened Wrappers
  import opened JsonValues
  import Text

  /** The value of the first creator tag; a tag without a value counts as null. */
  function FirstCreator(tags: seq<Json>): Json {
    if tags == [] then Null
    else if HasKey(tags[0], CREATOR_TAG) then Field(tags[0].fields, "value").GetOr(Null)
    else FirstCreator(tags[1..])
  }

  function CreatorOf(fields: map<string, Json>): Json {
    if "tags" in fields && fields["tags"].Arr? then FirstCreator(fields["tags"].items) else Null
  }

  /** A model version with a known creator. */
  predicate Labelled(fields: map<string, Json>) {
    Truthy(CreatorOf(fields)) && "name" in fields && "version" in fields
  }

  /** A labelled object has a name and a version, and the first of its tags that names a creator does so with a value. */
  lemma {:induction false} FirstCreatorIs(tags: seq<Json>, k: nat)
    requires k < |tags| && HasKey(tags[k], CREATOR_TAG) && forall j :: 0 <= j < k ==> !HasKey(tags[j], CREATOR_TAG)
    ensures FirstCreator(tags) == Field(tags[k].fields, "value").GetOr(Null)
  {
    if k > 0 { FirstCreatorIs(tags[1..], k - 1); }
  }

  lemma {:induction false} NoCreator(tags: seq<Json>)
    requires forall tag :: tag in tags ==> !HasKey(tag, CREATOR_TAG)
    ensures FirstCreator(tags) == Null
  {
    if tags != [] { NoCreator(tags[1..]); }
  }

  lemma LabelledExactly(fields: map<string, Json>)
    ensures Labelled(fields) <==>
              && "name" in fields && "version" in fields && "tags" in fields && fields["tags"].Arr?
              && exists k | 0 <= k < |fields["tags"].items| :: FirstCreatorAt(fields["tags"].items, k)
                                                              && Truthy(Field(fields["tags"].items[k].fields, "value").GetOr(Null))
  {
    if "tags" in fields && fields["tags"].Arr? {
      var tags := fields["tags"].items;
      if k :| 0 <= k < |tags| && FirstCreatorAt(tags, k) && Truthy(Field(tags[k].fields, "value").GetOr(Null)) {
        FirstCreatorIs(tags, k);
      } else if Truthy(FirstCreator(tags)) {
        var k := FirstCreatorPlace(tags);
        FirstCreatorIs(tags, k);
      }
    }
  }

  predicate FirstCreatorAt(tags: seq<Json>, k: nat) {
    k < |tags| && HasKey(tags[k], CREATOR_TAG) && forall j | 0 <= j < k :: !HasKey(tags[j], CREATOR_TAG)
  }

  lemma {:induction false} FirstCreatorPlace(tags: seq<Json>) returns (k: nat)
    requires FirstCreator(tags) != Null
    ensures FirstCreatorAt(tags, k)
  {
    if HasKey(tags[0], CREATOR_TAG) {
      k := 0;
    } else {
      var n := FirstCreatorPlace(tags[1..]);
      k := n + 1;
    }
  }

  lemma {:induction false} FirstCreatorInside(tags: seq<Json>)
    requires FirstCreator(tags) != Null
    ensures exists tag :: tag in tags && HasKey(tag, CREATOR_TAG) && "value" in tag.fields && tag.fields["value"] == FirstCreator(tags)
  {
    if HasKey(tags[0], CREATOR_TAG) {
      assert tags[0] in tags;
    } else {
      FirstCreatorInside(tags[1..]);
    }
  }

  lemma CreatorInside(v: Json)
    requires v.Obj? && Truthy(CreatorOf(v.fields))
    ensures CreatorOf(v.fields) < v
  {
    FirstCreatorInside(v.fields["tags"].items);
  }

  /** The object after its own field is set, before its members are visited. */
  function Assigned(fields: map<string, Json>): map<string, Json> {
    if Labelled(fields) then fields["user_id" := CreatorOf(fields)] else fields
  }

  lemma AssignedSmaller(v: Json)
    requires v.Obj?
    ensures forall k :: k in Assigned(v.fields) ==> Assigned(v.fields)[k] < v
  {
    if Labelled(v.fields) { CreatorInside(v); }
  }

  function Credited(v: Json): Json
    decreases v
  {
    match v
    case Arr(items) => Arr(seq(|items|, i requires 0 <= i < |items| => Credited(items[i])))
    case Obj(fields) =>
      AssignedSmaller(v);
      Obj(map k | k in Assigned(fields) :: Credited(Assigned(fields)[k]))
    case _ => v
  }

  /** Some labelled object is in the tree. */
  predicate HasLabelled(v: Json)
    decreases v
  {
    match v
    case Arr(items) => exists i | 0 <= i < |items| :: HasLabelled(items[i])
    case Obj(fields) => Labelled(fields) || exists k | k in fields :: HasLabelled(fields[k])
    case _ => false
  }

  /** Every labelled object of the tree shows its creator. */
  ghost predicate AllShown(v: Json)
    decreases v
  {
    match v
    case Arr(items) => forall i | 0 <= i < |items| :: AllShown(items[i])
    case Obj(fields) =>
      && (Labelled(fields) ==> Field(fields, "user_id") == Some(CreatorOf(fields)))
      && forall k | k in fields :: AllShown(fields[k])
    case _ => true
  }

  /** The same tree up to the user_id fields of labelled objects. */
  ghost predicate Alike(v: Json, w: Json)
    decreases v
  {
    match (v, w)
    case (Arr(a), Arr(b)) => |a| == |b| && forall i | 0 <= i < |a| :: Alike(a[i], b[i])
    case (Obj(a), Obj(b)) =>
      && Labelled(a) == Labelled(b)
      && (forall k :: k in a || k in b ==> (k in a && k in b) || (k == "user_id" && Labelled(a)))
      && (forall k | k in a && !(k == "user_id" && Labelled(a)) :: Alike(a[k], b[k]))
    case _ => v == w
  }

  lemma CreditedKeepsKey(tag: Json)
    ensures HasKey(Credited(tag), CREATOR_TAG) == HasKey(tag, CREATOR_TAG)
    ensures tag.Obj? ==> Credited(tag).Obj? && Field(Credited(tag).fields, "value").GetOr(Null) == Credited(Field(tag.fields, "value").GetOr(Null))
  {
  }

  lemma {:induction false} CreatorCredited(items: seq<Json>, shown: seq<Json>)
    requires |items| == |shown| && forall i :: 0 <= i < |items| ==> shown[i] == Credited(items[i])
    ensures FirstCreator(shown) == Credited(FirstCreator(items))
  {
    if items != [] {
      CreditedKeepsKey(items[0]);
      CreatorCredited(items[1..], shown[1..]);
    }
  }

  lemma TruthCredited(v: Json)
    ensures Truthy(Credited(v)) == Truthy(v)
  {
  }

  /** Crediting an object keeps it labelled or not, and credits the creator it shows. */
  lemma LabelCredited(v: Json)
    requires v.Obj?
    ensures Credited(v).Obj? && Credited(v).fields.Keys == Assigned(v.fields).Keys
    ensures forall k :: k in Assigned(v.fields) ==> Credited(v).fields[k] == Credited(Assigned(v.fields)[k])
    ensures CreatorOf(Credited(v).fields) == Credited(CreatorOf(v.fields))
    ensures Labelled(Credited(v).fields) == Labelled(v.fields)
  {
    AssignedSmaller(v);
    var fields := v.fields;
    if "tags" in fields {
      assert Credited(v).fields["tags"] == Credited(fields["tags"]);
      if fields["tags"].Arr? {
        CreatorCredited(fields["tags"].items, Credited(fields["tags"]).items);
      }
    }
    TruthCredited(CreatorOf(fields));
  }

  /** Afterwards every model version shows its creator ... */
  lemma {:induction false} CreditedShowsAll(v: Json)
    ensures AllShown(Credited(v))
    decreases v
  {
    match v {
      case Arr(items) =>
        forall i | 0 <= i < |items| ensures AllShown(Credited(v).items[i]) { CreditedShowsAll(items[i]); }
      case Obj(fields) =>
        LabelCredited(v);
        AssignedSmaller(v);
        forall k | k in Assigned(fields) ensures AllShown(Credited(v).fields[k]) { CreditedShowsAll(Assigned(fields)[k]); }
      case _ =>
    }
  }

  /** ... and nothing else differs. */
  lemma {:induction false} CreditedAlike(v: Json)
    ensures Alike(v, Credited(v))
    decreases v
  {
    match v {
      case Arr(items) =>
        forall i | 0 <= i < |items| ensures Alike(items[i], Credited(v).items[i]) { CreditedAlike(items[i]); }
      case Obj(fields) =>
        LabelCredited(v);
        forall k | k in fields && !(k == "user_id" && Labelled(fields)) ensures Alike(fields[k], Credited(v).fields[k]) {
          CreditedAlike(fields[k]);
        }
      case _ =>
    }
  }

  lemma ObjectCredited(v: Json, w: Json)
    requires v.Obj? && w.Obj? && Alike(v, w) && AllShown(w)
    requires forall k :: k in v.fields && !(k == "user_id" && Labelled(v.fields)) ==> w.fields[k] == Credited(v.fields[k])
    ensures w == Credited(v)
  {
    LabelCredited(v);
    var shown := Credited(v).fields;
    forall k | k in v.fields && !(k == "user_id" && Labelled(v.fields)) ensures k in shown && w.fields[k] == shown[k] {
      assert k in Assigned(v.fields) && Assigned(v.fields)[k] == v.fields[k];
    }
    if Labelled(v.fields) {
      assert w.fields["tags"] == shown["tags"];
      assert CreatorOf(w.fields) == CreatorOf(shown);
      CreditedShowsAll(v);
      assert w.fields["user_id"] == shown["user_id"];
    }
    assert w.fields.Keys == shown.Keys;
    assert w.fields == shown;
  }

  lemma {:induction false} OnlyCredited(v: Json, w: Json)
    requires Alike(v, w) && AllShown(w)
    ensures w == Credited(v)
    decreases v
  {
    match v {
      case Arr(items) =>
        forall i | 0 <= i < |items| ensures w.items[i] == Credited(items[i]) { OnlyCredited(items[i], w.items[i]); }
        assert w.items == Credited(v).items;
      case Obj(fields) =>
        forall k | k in fields && !(k == "user_id" && Labelled(fields)) ensures k in w.fields && w.fields[k] == Credited(fields[k]) {
          OnlyCredited(fields[k], w.fields[k]);
        }
        ObjectCredited(v, w);
      case _ =>
    }
  }

  /** The rewrite is exactly the tree that shows all creators and is otherwise the same. */
  lemma CreditedExactly(v: Json, w: Json)
    ensures w == Credited(v) <==> Alike(v, w) && AllShown(w)
  {
    CreditedShowsAll(v);
    CreditedAlike(v);
    if Alike(v, w) && AllShown(w) { OnlyCredited(v, w); }
  }

  lemma {:induction false} AlikeItself(v: Json)
    ensures Alike(v, v)
    decreases v
  {
    match v {
      case Arr(items) => forall i | 0 <= i < |items| ensures Alike(items[i], items[i]) { AlikeItself(items[i]); }
      case Obj(fields) => forall k | k in fields ensures Alike(fields[k], fields[k]) { AlikeItself(fields[k]); }
      case _ =>
    }
  }

  /** Visiting a subtree twice, as happens to a creator that is itself an object, is visiting it once. */
  lemma CreditedTwice(v: Json)
    ensures Credited(Credited(v)) == Credited(v)
  {
    AlikeItself(Credited(v));
    CreditedShowsAll(v);
    OnlyCredited(Credited(v), Credited(v));
  }

  lemma {:induction false} UnlabelledShown(v: Json)
    requires !HasLabelled(v)
    ensures AllShown(v)
    decreases v
  {
    match v {
      case Arr(items) => forall i | 0 <= i < |items| ensures AllShown(items[i]) { UnlabelledShown(items[i]); }
      case Obj(fields) => forall k | k in fields ensures AllShown(fields[k]) { UnlabelledShown(fields[k]); }
      case _ =>
    }
  }

  /** The response is left as it is only where the rewrite would not change it. */
  lemma UnlabelledUnchanged(v: Json)
    requires !HasLabelled(v)
    ensures Credited(v) == v
  {
    AlikeItself(v);
    UnlabelledShown(v);
    OnlyCredited(v, v);
  }

  lemma AssignedLabels(v: Json)
    requires v.Obj?
    ensures HasLabelled(v) <==> Labelled(v.fields) || exists k | k in Assigned(v.fields) :: HasLabelled(Assigned(v.fields)[k])
  {
    if !Labelled(v.fields) {
      assert Assigned(v.fields) == v.fields;
    }
  }

  method VisitItems(v: Json) returns (shown: seq<Json>, changed: bool)
    requires v.Arr?
    ensures Arr(shown) == Credited(v) && changed == HasLabelled(v)
    decreases v, 0
  {
    var items := v.items;
    shown, changed := [], false;
    for i := 0 to |items|
      invariant |shown| == i && forall j :: 0 <= j < i ==> shown[j] == Credited(items[j])
      invariant changed <==> exists j | 0 <= j < i :: HasLabelled(items[j])
    {
      var item, inner := Visit(items[i]);
      shown, changed := shown + [item], changed || inner;
    }
    assert shown == Credited(v).items;
  }

  method VisitMembers(v: Json, members: map<string, Json>) returns (shown: map<string, Json>, changed: bool)
    requires forall k :: k in members ==> members[k] < v
    ensures shown.Keys == members.Keys && forall k :: k in members ==> shown[k] == Credited(members[k])
    ensures changed <==> exists k | k in members :: HasLabelled(members[k])
    decreases v, 0
  {
    changed := false;
    var rest := members.Keys;
    shown := members;
    while rest != {}
      invariant rest <= members.Keys && shown.Keys == members.Keys
      invariant forall k :: k in members ==> shown[k] == if k in rest then members[k] else Credited(members[k])
      invariant changed <==> exists k | k in members && k !in rest :: HasLabelled(members[k])
      decreases |rest|
    {
      var k :| k in rest;
      var item, inner := Visit(members[k]);
      shown, changed, rest := shown[k := item], changed || inner, rest - {k};
    }
  }

  /** The visitor: it sets the field of an object, then visits the members, among them the field it just set. */
  method Visit(v: Json) returns (w: Json, changed: bool)
    ensures w == Credited(v) && changed == HasLabelled(v)
    decreases v, 1
  {
    w, changed := v, false;
    match v {
      case Arr(items) =>
        var shown, inner := VisitItems(v);
        w, changed := Arr(shown), inner;
      case Obj(fields) =>
        LabelCredited(v);
        AssignedSmaller(v);
        AssignedLabels(v);
        var shown, inner := VisitMembers(v, Assigned(fields));
        assert shown == Credited(v).fields;
        w, changed := Obj(shown), Labelled(fields) || inner;
      case _ =>
    }
  }

  /** The paths whose responses are rewritten. */
  predicate ListsModels(path: string) {
    var p := Text.Trim(path);
    var q := if "ajax-" <= p then p[5..] else p;
    "api/2.0/mlflow/model-versions" <= q || "api/2.0/mlflow/registered-models" <= q
  }

  lemma Untrimmed(p: string)
    requires p != "" && p[0] != '/' && p[|p| - 1] != '/'
    ensures Text.Trim(p) == p
  {
  }

  /** These are the listings of model versions and registered models, for browsers too. */
  lemma ListedModels(prefix: string, rest: string)
    requires rest == "" || rest[|rest| - 1] != '/'
    requires prefix in {"api/2.0/mlflow/model-versions", "api/2.0/mlflow/registered-models"}
    ensures ListsModels(prefix + rest) && ListsModels("ajax-" + prefix + rest)
  {
    BrowserListing(prefix, rest);
    Untrimmed(prefix + rest);
    Untrimmed("ajax-" + prefix + rest);
  }

  lemma BrowserListing(prefix: string, rest: string)
    requires prefix in {"api/2.0/mlflow/model-versions", "api/2.0/mlflow/registered-models"}
    ensures prefix <= prefix + rest && !("ajax-" <= prefix + rest)
    ensures "ajax-" <= "ajax-" + prefix + rest && ("ajax-" + prefix + rest)[5..] == prefix + rest
  {
    assert (prefix + rest)[1] == 'p' && "ajax-"[1] == 'j';
  }

  /** Responses that are errors, not JSON, or about something else pass through; so do those with nothing to show. */
  method ExposeCreator(path: string, status: int, payload: Option<Json>) returns (body: Option<Json>, rewritten: bool)
    ensures ListsModels(path) && status < 400 && payload.Some? ==> body == Some(Credited(payload.value))
    ensures !ListsModels(path) || status >= 400 || payload.None? ==> body == payload
    ensures rewritten ==> ListsModels(path) && status < 400 && payload.Some? && HasLabelled(payload.value)
    ensures !rewritten ==> body == payload
  {
    body, rewritten := payload, false;
    if !ListsModels(path) || status >= 400 || payload.None? { return; }
    var shown, changed := Visit(payload.value);
    if !changed {
      UnlabelledUnchanged(payload.value);
      return;
    }
    return Some(shown), true;
  }
}
