/** controllers/CategoryController.js: each handler maps the service's answer to an HTTP status.
    The handlers look for the bare message "Category not found", but the service always rethrows
    it behind a prefix, so the 404 branches are never taken. */
module CategoryController {
  import opened Wrappers
  import opened Js
  import opened Records
  import opened Database
  import opened Http
  import opened CategoryRepository
  import opened CategoryTree
  import opened CategoryService

  /** `req.query.includeDeleted === 'true' && req.user?.role === 'ADMIN'`. The listing route runs
      without the authentication middleware, so `req.user` is absent there and deleted categories
      are never listed. */
  function IncludeDeleted(query: JsValue, user: Option<Role>): (b: bool)
    ensures b <==> query == Str("true") && user == Some(ADMIN)
    ensures user.None? ==> !b
  {
    StrictEquals(query, Str("true")) && user.Some? && user.value == ADMIN
  }

  /** `createCategory`: 201 with the new category, 400 with the message otherwise. */
  function CreateReply(t: seq<Category>, data: NewCategory): (r: Reply<Category>)
    requires CategoriesWellFormed(t)
    ensures r.body == CreateVerdict(t, data, false)
    ensures r.status == (if r.body.Ok? then 201 else 400)
  {
    var answer := CreateVerdict(t, data, false);
    Reply(if answer.Ok? then 201 else 400, answer)
  }

  /** `getCategoryById`: 200 when found; a missing category is reported with 500, not 404. */
  function GetByIdReply(t: seq<Category>, id: string): (r: Reply<Category>)
    requires CategoriesWellFormed(t)
    ensures r.body == GetCategoryById(t, id)
    ensures r.status == 200 <==> ParseInt(id).Some? && 1 <= ParseInt(id).value <= |t|
    ensures r.status != 200 ==> r.status == 500
  {
    var answer := GetCategoryById(t, id);
    if answer.Ok? then Reply(200, answer)
    else Reply(if answer.msg == NotFound then 404 else 500, answer)
  }

  /** `updateCategory`: 200 on success; every failure, a missing category included, gives 400. */
  ghost function UpdateReply(t: seq<Category>, rank: map<int, nat>, id: string, patch: CategoryPatch): (r: Reply<Category>)
    requires CategoriesWellFormed(t) && Ranked(t, rank)
    ensures r.body == UpdateVerdict(t, rank, id, patch, false)
    ensures r.status == (if r.body.Ok? then 200 else 400)
    ensures ParseInt(id).Some? && !(1 <= ParseInt(id).value <= |t|) ==> r.status == 400
  {
    var answer := UpdateVerdict(t, rank, id, patch, false);
    if answer.Ok? then Reply(200, answer)
    else Reply(if answer.msg == NotFound then 404 else 400, answer)
  }

  /** `deleteCategory`: 204 on success; every failure, a missing category included, gives 500. */
  function DeleteReply(t: seq<Category>, id: string): (r: Reply<Category>)
    requires CategoriesWellFormed(t)
    ensures r.body == DeleteVerdict(t, id)
    ensures r.status == (if r.body.Ok? then 204 else 500)
    ensures ParseInt(id).Some? && !(1 <= ParseInt(id).value <= |t|) ==> r.status == 500
  {
    var answer := DeleteVerdict(t, id);
    if answer.Ok? then Reply(204, answer)
    else Reply(if answer.msg == NotFound then 404 else 500, answer)
  }
}
