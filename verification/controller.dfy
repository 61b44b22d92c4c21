/**
 * The request gates and the values the `create`, `deletepost` and
 * `updatepost` handlers hand to the store. Each handler is a function from
 * the request to a `Reply`: either the error it forwards (status and
 * message) or the one store call it makes. The store call itself, and the
 * response written after it, are not modelled.
 */
module PostController {
  import opened Wrappers
  import Slug

  /** `req.user`, as the authentication middleware sets it. */
  datatype User = User(id: string, isAdmin: bool)

  /** A JSON request body: field name to string value; a missing key is `undefined`. */
  type Body = map<string, string>

  /** `req.params` of the routes `/:postId/:userId`. */
  datatype PathParams = PathParams(postId: string, userId: string)

  /** The outcome of a handler's guard. */
  datatype Gate = Forbidden | BadRequest | Proceed

  /** `req.body[key]`: the value, or `None` for `undefined`. */
  function Field(body: Body, key: string): (v: Option<string>)
    ensures v.Some? <==> key in body
    ensures v.Some? ==> v.value == body[key]
  {
    if key in body then Some(body[key]) else None
  }

  /** `req.body[key]` is truthy: neither `undefined` nor the empty string. */
  function Present(body: Body, key: string): (b: bool)
    ensures b <==> Field(body, key).Some? && Field(body, key).value != ""
    ensures !b <==> Field(body, key) in {None, Some("")}
  {
    key in body && body[key] != ""
  }

  const CreateForbidden := "You are not allowed to create a post"
  const MissingFields := "Please provide all required fields"
  const DeleteForbidden := "You are not allowed to delete this post"
  const UpdateForbidden := "You are not allowed to update this post"

  /** `create`: admins only; then title and content are required. */
  function CreateGate(user: User, body: Body): (g: Gate)
    ensures g == Forbidden <==> !user.isAdmin
    ensures user.isAdmin ==> (g == BadRequest <==> !Present(body, "title") || !Present(body, "content"))
    ensures g == Proceed <==> user.isAdmin && Present(body, "title") && Present(body, "content")
  {
    if !user.isAdmin then Forbidden
    else if !Present(body, "title") || !Present(body, "content") then BadRequest
    else Proceed
  }

  /** `deletepost` and `updatepost`: an admin acting on their own user id. */
  function OwnerGate(user: User, path: PathParams): (g: Gate)
    ensures g == Proceed <==> user.isAdmin && user.id == path.userId
    ensures g != BadRequest
  {
    if !user.isAdmin || user.id != path.userId then Forbidden else Proceed
  }

  /** The admin check comes first: a non-admin is refused whatever the body holds. */
  lemma CreateGateNonAdmin(user: User, body: Body, other: Body)
    requires !user.isAdmin
    ensures CreateGate(user, body) == Forbidden
    ensures CreateGate(user, body) == CreateGate(user, other)
  {
  }


  // ---------------------------------------------------------------------
  // Documents

  /** A stored document: field name to string value. */
  type Document = map<string, string>

  /**
   * `new Post({ ...req.body, slug, userId: req.user.id })`: the body's
   * fields, then the derived slug and the caller's id, which win over any
   * `slug` or `userId` the body carries.
   */
  function NewPostDocument(user: User, body: Body): (doc: Document)
    requires "title" in body
    ensures doc.Keys == body.Keys + {"slug", "userId"}
    ensures doc["slug"] == Slug.Slugify(body["title"])
    ensures doc["userId"] == user.id
    ensures forall k :: k in body && k != "slug" && k != "userId" ==> doc[k] == body[k]
  {
    body["slug" := Slug.Slugify(body["title"])]["userId" := user.id]
  }

  /** A body's own `slug` and `userId` have no effect on the created document. */
  lemma NewPostIgnoresBodySlugAndUser(user: User, body: Body, slug: string, userId: string)
    requires "title" in body
    ensures NewPostDocument(user, body["slug" := slug]["userId" := userId]) == NewPostDocument(user, body)
  {
    var b := body["slug" := slug]["userId" := userId];
    var d1, d2 := NewPostDocument(user, b), NewPostDocument(user, body);
    assert d1.Keys == d2.Keys;
    forall k | k in d1 ensures d1[k] == d2[k] {
    }
  }

  /** The fields `updatepost` puts in its `$set`. */
  const UpdateFields: set<string> := {"title", "content", "category", "image"}

  /**
   * The `$set` of `updatepost`: always the same four fields, each the body's
   * value verbatim, `None` where the body leaves it `undefined`.
   */
  function UpdateSet(body: Body): (s: map<string, Option<string>>)
    ensures s.Keys == UpdateFields
    ensures forall k :: k in s ==> s[k] == Field(body, k)
  {
    map["title" := Field(body, "title"), "content" := Field(body, "content"),
        "category" := Field(body, "category"), "image" := Field(body, "image")]
  }

  /**
   * The update never writes `slug` or `userId`, so a new title leaves the
   * stored slug as it was, whatever the body says about the slug.
   */
  lemma UpdateLeavesSlugAlone(body: Body)
    ensures "slug" !in UpdateSet(body) && "userId" !in UpdateSet(body)
  {
  }

  /** Only the four named fields of the body matter to the update. */
  lemma UpdateDependsOnlyOnItsFields(body: Body, other: Body)
    requires forall k :: k in UpdateFields ==> Field(body, k) == Field(other, k)
    ensures UpdateSet(body) == UpdateSet(other)
  {
  }

  /** A body with only a title still sets the other three fields, to `undefined`. */
  lemma UpdateTitleOnly(title: string)
    ensures UpdateSet(map["title" := title])
         == map["title" := Some(title), "content" := None, "category" := None, "image" := None]
  {
  }

  // ---------------------------------------------------------------------
  // Handlers

  /** The one store operation a handler performs. */
  datatype StoreCall =
    | Save(doc: Document)
    | DeleteById(postId: string)
    | UpdateById(postId: string, fields: map<string, Option<string>>)

  /** What a handler does: forward an error, or call the store. */
  datatype Reply = Fail(status: int, message: string) | Call(call: StoreCall)

  function Create(user: User, body: Body): (r: Reply)
    ensures !user.isAdmin ==> r == Fail(403, CreateForbidden)
    ensures user.isAdmin && (!Present(body, "title") || !Present(body, "content"))
      ==> r == Fail(400, MissingFields)
    ensures r.Call? <==> CreateGate(user, body) == Proceed
    ensures r.Call? ==> (r.call.Save?
      && r.call.doc.Keys == body.Keys + {"slug", "userId"}
      && r.call.doc["slug"] == Slug.Slugify(body["title"])
      && r.call.doc["userId"] == user.id
      && forall k :: k in body && k != "slug" && k != "userId" ==> r.call.doc[k] == body[k])
    ensures r.Call? ==> "title" in body && r.call == Save(NewPostDocument(user, body))
  {
    match CreateGate(user, body)
    case Forbidden => Fail(403, CreateForbidden)
    case BadRequest => Fail(400, MissingFields)
    case Proceed => Call(Save(NewPostDocument(user, body)))
  }

  function Delete(user: User, path: PathParams): (r: Reply)
    ensures r.Call? <==> user.isAdmin && user.id == path.userId
    ensures r.Call? ==> r.call == DeleteById(path.postId)
    ensures r.Fail? ==> r == Fail(403, DeleteForbidden)
  {
    if OwnerGate(user, path) == Proceed then Call(DeleteById(path.postId))
    else Fail(403, DeleteForbidden)
  }

  function Update(user: User, path: PathParams, body: Body): (r: Reply)
    ensures r.Call? <==> user.isAdmin && user.id == path.userId
    ensures r.Call? ==> (r.call.UpdateById? && r.call.postId == path.postId
      && r.call.fields.Keys == UpdateFields
      && forall k :: k in r.call.fields ==> r.call.fields[k] == Field(body, k))
    ensures r.Fail? ==> r == Fail(403, UpdateForbidden)
  {
    if OwnerGate(user, path) == Proceed then Call(UpdateById(path.postId, UpdateSet(body)))
    else Fail(403, UpdateForbidden)
  }

  /** A refused create saves nothing; a refused delete or update touches nothing. */
  lemma RefusalsMakeNoStoreCall(user: User, path: PathParams, body: Body)
    ensures CreateGate(user, body) != Proceed ==> Create(user, body).Fail?
    ensures OwnerGate(user, path) != Proceed ==> Delete(user, path).Fail? && Update(user, path, body).Fail?
  {
  }

  /** Missing content is a bad request for an admin, and nothing is saved. */
  lemma CreateWithoutContent(user: User, title: string)
    requires user.isAdmin
    ensures Create(user, map["title" := title]) == Fail(400, MissingFields)
  {
  }
}
