/** The router's recovery point: a handler either writes its success envelope with the
    default status 200, or aborts and `exception.ErrorHandler`, installed as the router's
    `PanicHandler`, answers instead. This is the only place a failure becomes a status. */
module Router {
  import opened Failures
  import opened Domain
  import opened Http
  import opened Web
  import opened Strconv
  import opened Exception
  import opened Controller

  /** The response to a request whose handler produced `handled`. */
  function Serve(handled: Result<WebResponse>): (r: Response)
    ensures handled.Ok? ==> r.status == StatusOK && r.body == handled.value
    ensures handled.Err? ==> r.status != StatusOK
    ensures handled.Err? && handled.failure.NotFound? ==> r.status == StatusNotFound
    ensures handled.Err? && handled.failure.Validation? ==> r.status == StatusBadRequest
    ensures handled.Err? && handled.failure.Other? ==> r.status == StatusInternalServerError
  {
    match handled
    case Ok(body) => Response(StatusOK, body)
    case Err(failure) => ErrorHandler(failure)
  }

  /** The shape every response shares, for whatever the handlers are given. */
  predicate ResponseWellFormed(r: Response) {
    && r.status in {StatusOK, StatusBadRequest, StatusNotFound, StatusInternalServerError}
    && r.body.code == r.status
    && r.body.status == StatusText(r.status)
  }

  /** Every handler's response is well formed: its envelope code is the status written and
      its status is that code's reason phrase, and no other status than 200, 400, 404 or
      500 is ever written. */
  lemma EveryResponseWellFormed(
    createBody: Body<CategoryCreateRequest>,
    updateBody: Body<CategoryUpdateRequest>,
    categoryId: string,
    create: CategoryCreateRequest -> Result<Category>,
    update: CategoryUpdateRequest -> Result<Category>,
    delete: int -> Result<()>,
    findById: int -> Result<Category>,
    findAll: Result<seq<Category>>
  )
    ensures ResponseWellFormed(Serve(CreateCategory(createBody, create)))
    ensures ResponseWellFormed(Serve(UpdateCategory(updateBody, categoryId, update)))
    ensures ResponseWellFormed(Serve(DeleteCategory(categoryId, delete)))
    ensures ResponseWellFormed(Serve(GetCategoryById(categoryId, findById)))
    ensures ResponseWellFormed(Serve(GetAllCategory(findAll)))
  {
  }

  /** A path segment that is not a Go `int` is answered with 500 by every handler that
      reads one, before the service is consulted: any two services give the same answer. */
  lemma NonIntegerPathIs500(
    categoryId: string,
    request: CategoryUpdateRequest,
    update1: CategoryUpdateRequest -> Result<Category>,
    update2: CategoryUpdateRequest -> Result<Category>,
    delete1: int -> Result<()>,
    delete2: int -> Result<()>,
    findById1: int -> Result<Category>,
    findById2: int -> Result<Category>
  )
    requires Atoi(categoryId).Err?
    ensures Serve(UpdateCategory(Decoded(request), categoryId, update1)).status == 500
    ensures Serve(DeleteCategory(categoryId, delete1)).status == 500
    ensures Serve(GetCategoryById(categoryId, findById1)).status == 500
    ensures UpdateCategory(Decoded(request), categoryId, update1)
         == UpdateCategory(Decoded(request), categoryId, update2)
    ensures DeleteCategory(categoryId, delete1) == DeleteCategory(categoryId, delete2)
    ensures GetCategoryById(categoryId, findById1) == GetCategoryById(categoryId, findById2)
  {
  }

  /** A body the decoder rejects is answered with 500, not 400, and the service is never
      consulted. */
  lemma MalformedBodyIs500(
    desc: string,
    categoryId: string,
    create1: CategoryCreateRequest -> Result<Category>,
    create2: CategoryCreateRequest -> Result<Category>,
    update1: CategoryUpdateRequest -> Result<Category>,
    update2: CategoryUpdateRequest -> Result<Category>
  )
    ensures Serve(CreateCategory(Malformed(desc), create1)).status == 500
    ensures Serve(UpdateCategory(Malformed(desc), categoryId, update1)).status == 500
    ensures CreateCategory(Malformed(desc), create1) == CreateCategory(Malformed(desc), create2)
    ensures UpdateCategory(Malformed(desc), categoryId, update1)
         == UpdateCategory(Malformed(desc), categoryId, update2)
  {
  }

  /** The id in an update body is ignored: only the path decides which id the service sees. */
  lemma PathIdOverridesBody(
    bodyId1: int,
    bodyId2: int,
    name: string,
    categoryId: string,
    update: CategoryUpdateRequest -> Result<Category>
  )
    ensures UpdateCategory(Decoded(CategoryUpdateRequest(bodyId1, name)), categoryId, update)
         == UpdateCategory(Decoded(CategoryUpdateRequest(bodyId2, name)), categoryId, update)
  {
  }

  /** A failure from the service reaches the classifier unchanged, whichever handler called
      it: the response is exactly what `ErrorHandler` makes of that failure. */
  lemma ServiceFailureReachesClassifier(
    f: Failure,
    createRequest: CategoryCreateRequest,
    updateRequest: CategoryUpdateRequest,
    id: int
  )
    requires MinInt <= id <= MaxInt
    ensures Serve(CreateCategory(Decoded(createRequest), _ => Err(f))) == ErrorHandler(f)
    ensures Serve(UpdateCategory(Decoded(updateRequest), Itoa(id), _ => Err(f))) == ErrorHandler(f)
    ensures Serve(DeleteCategory(Itoa(id), _ => Err(f))) == ErrorHandler(f)
    ensures Serve(GetCategoryById(Itoa(id), _ => Err(f))) == ErrorHandler(f)
    ensures Serve(GetAllCategory(Err(f))) == ErrorHandler(f)
  {
    AtoiItoa(id);
  }

  /** A request to `"/api/categories/" + strconv.Itoa(id)` hands the service that very
      `id`, and a found category is served as the envelope's data with status 200. */
  lemma ItoaPathReachesService(id: int, findById: int -> Result<Category>)
    requires MinInt <= id <= MaxInt
    ensures findById(id).Ok? ==>
      Serve(GetCategoryById(Itoa(id), findById)) == Response(200, WebResponse(200, "OK", Item(findById(id).value)))
    ensures findById(id).Err? ==>
      Serve(GetCategoryById(Itoa(id), findById)) == ErrorHandler(findById(id).failure)
  {
    AtoiItoa(id);
  }

  /** A successful delete is answered with 200, "OK" and no data (JSON null). */
  lemma DeleteSuccessHasNoData(id: int)
    requires MinInt <= id <= MaxInt
    ensures Serve(DeleteCategory(Itoa(id), _ => Ok(())))
         == Response(200, WebResponse(200, "OK", Null))
  {
    AtoiItoa(id);
  }
}
