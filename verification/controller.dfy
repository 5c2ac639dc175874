/** The five HTTP handlers, each a map from its inputs (path segment, decoded body, the
    service's answer) to either a 200 envelope or the failure that aborts it.

    The service is not part of this model: each handler takes the service operation it
    calls as a function parameter and makes no assumption about what it does. */
module Controller {
  import opened Failures
  import opened Domain
  import opened Http
  import opened Web
  import opened Strconv

  /** What the JSON decoder made of a request body. */
  datatype Body<T> = Decoded(request: T) | Malformed(desc: string)

  /** `helper.ReadFromRequestBody`: a decode error aborts the request as an unclassified
      failure, never as a validation failure. */
  function ReadFromRequestBody<T>(body: Body<T>): (r: Result<T>)
    ensures r.Ok? <==> body.Decoded?
    ensures r.Ok? ==> r.value == body.request
    ensures r.Err? ==> r.failure == Other(body.desc)
  {
    match body
    case Decoded(request) => Ok(request)
    case Malformed(desc) => Err(Other(desc))
  }

  /** The success envelope every handler writes. */
  function Success(data: Data): WebResponse {
    WebResponse(StatusOK, StatusText(StatusOK), data)
  }

  /** `CreateCategory`: decode the body, hand it to the service, wrap its answer. */
  function CreateCategory(
    body: Body<CategoryCreateRequest>,
    create: CategoryCreateRequest -> Result<Category>
  ): (r: Result<WebResponse>)
    ensures r.Ok? <==> body.Decoded? && create(body.request).Ok?
    ensures r.Ok? ==> r.value == WebResponse(200, "OK", Item(create(body.request).value))
    ensures body.Malformed? ==> r == Err(Other(body.desc))
    ensures body.Decoded? && create(body.request).Err? ==> r == Err(create(body.request).failure)
  {
    var request :- ReadFromRequestBody(body);
    var category :- create(request);
    Ok(Success(Item(category)))
  }

  /** `UpdateCategory`: decode the body, parse the path id, then call the service with the
      body's name under the path's id, whatever id the body carried. */
  function UpdateCategory(
    body: Body<CategoryUpdateRequest>,
    categoryId: string,
    update: CategoryUpdateRequest -> Result<Category>
  ): (r: Result<WebResponse>)
    ensures r.Ok? <==> (body.Decoded? && Atoi(categoryId).Ok?
      && update(CategoryUpdateRequest(Atoi(categoryId).value, body.request.name)).Ok?)
    ensures r.Ok? ==> r.value == WebResponse(200, "OK",
      Item(update(CategoryUpdateRequest(Atoi(categoryId).value, body.request.name)).value))
    ensures body.Malformed? ==> r == Err(Other(body.desc))
    ensures body.Decoded? && Atoi(categoryId).Err? ==> r == Err(Atoi(categoryId).failure)
    ensures body.Decoded? && Atoi(categoryId).Ok?
      && update(CategoryUpdateRequest(Atoi(categoryId).value, body.request.name)).Err?
      ==> r == Err(update(CategoryUpdateRequest(Atoi(categoryId).value, body.request.name)).failure)
  {
    var request :- ReadFromRequestBody(body);
    var id :- Atoi(categoryId);
    var category :- update(request.(id := id));
    Ok(Success(Item(category)))
  }

  /** `DeleteCategory`: parse the path id, call the service; the envelope has no data. */
  function DeleteCategory(categoryId: string, delete: int -> Result<()>): (r: Result<WebResponse>)
    ensures r.Ok? <==> Atoi(categoryId).Ok? && delete(Atoi(categoryId).value).Ok?
    ensures r.Ok? ==> r.value == WebResponse(200, "OK", Null)
    ensures Atoi(categoryId).Err? ==> r == Err(Atoi(categoryId).failure)
    ensures Atoi(categoryId).Ok? && delete(Atoi(categoryId).value).Err?
      ==> r == Err(delete(Atoi(categoryId).value).failure)
  {
    var id :- Atoi(categoryId);
    var _ :- delete(id);
    Ok(Success(Null))
  }

  /** `GetCategoryById`: parse the path id, return what the service found. */
  function GetCategoryById(categoryId: string, findById: int -> Result<Category>): (r: Result<WebResponse>)
    ensures r.Ok? <==> Atoi(categoryId).Ok? && findById(Atoi(categoryId).value).Ok?
    ensures r.Ok? ==> r.value == WebResponse(200, "OK", Item(findById(Atoi(categoryId).value).value))
    ensures Atoi(categoryId).Err? ==> r == Err(Atoi(categoryId).failure)
    ensures Atoi(categoryId).Ok? && findById(Atoi(categoryId).value).Err?
      ==> r == Err(findById(Atoi(categoryId).value).failure)
  {
    var id :- Atoi(categoryId);
    var category :- findById(id);
    Ok(Success(Item(category)))
  }

  /** `GetAllCategory`: return the service's list as it is. */
  function GetAllCategory(findAll: Result<seq<Category>>): (r: Result<WebResponse>)
    ensures r.Ok? <==> findAll.Ok?
    ensures r.Ok? ==> r.value == WebResponse(200, "OK", Items(findAll.value))
    ensures r.Err? ==> r.failure == findAll.failure
  {
    var categories :- findAll;
    Ok(Success(Items(categories)))
  }
}
