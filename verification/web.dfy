/** The wire-level types: the two request bodies with their validation tags, and the
    uniform `{code, status, data}` response envelope. */
module Web {
  import opened Failures
  import opened Domain

  datatype CategoryCreateRequest = CategoryCreateRequest(name: string)

  datatype CategoryUpdateRequest = CategoryUpdateRequest(id: int, name: string)

  /** Bounds of the `max=255,min=1` tags. The validator measures a string in runes,
      which is what `|name|` counts for a `seq<char>`. */
  const MinNameLength := 1
  const MaxNameLength := 255

  /** The tags of `Name` read as a predicate: `required` (not the empty string),
      `max=255` and `min=1`. */
  predicate ValidName(name: string) {
    name != "" && |name| <= MaxNameLength && MinNameLength <= |name|
  }

  predicate ValidCreate(req: CategoryCreateRequest) {
    ValidName(req.name)
  }

  /** `required` on an `int` field means "not the zero value": any non-zero id passes. */
  predicate ValidUpdate(req: CategoryUpdateRequest) {
    req.id != 0 && ValidName(req.name)
  }

  /** One entry of a `validator.ValidationErrors`: the struct field and the tag it failed. */
  datatype FieldError = FieldError(field: string, tag: string)

  /** The validator's walk over `Name`'s tags in their written order, stopping at the first
      one that fails. `min=1` can never be the one reported: `required` already refused "". */
  function NameErrors(name: string): (errs: seq<FieldError>)
    ensures errs == [] <==> ValidName(name)
    ensures |errs| <= 1
    ensures forall e :: e in errs ==> e.field == "Name" && (e.tag == "required" || e.tag == "max")
    ensures errs == [FieldError("Name", "required")] <==> name == ""
    ensures errs == [FieldError("Name", "max")] <==> |name| > MaxNameLength
  {
    if name == "" then [FieldError("Name", "required")]
    else if |name| > MaxNameLength then [FieldError("Name", "max")]
    else if |name| < MinNameLength then [FieldError("Name", "min")]
    else []
  }

  /** Field errors of a create request; it passes exactly when there are none. */
  function CreateErrors(req: CategoryCreateRequest): (errs: seq<FieldError>)
    ensures errs == [] <==> ValidCreate(req)
    ensures errs == [FieldError("Name", "required")] <==> req.name == ""
    ensures errs == [FieldError("Name", "max")] <==> |req.name| > MaxNameLength
  {
    NameErrors(req.name)
  }

  /** Field errors of an update request, in struct-field order (`Id`, then `Name`). */
  function UpdateErrors(req: CategoryUpdateRequest): (errs: seq<FieldError>)
    ensures errs == [] <==> ValidUpdate(req)
    ensures (FieldError("Id", "required") in errs) <==> req.id == 0
    ensures |errs| <= 2
    ensures (FieldError("Name", "required") in errs) <==> req.name == ""
    ensures (FieldError("Name", "max") in errs) <==> |req.name| > MaxNameLength
    ensures req.id == 0 ==> errs[0] == FieldError("Id", "required")
    ensures req.id != 0 ==> errs == NameErrors(req.name)
    ensures |errs| == (if req.id == 0 then 1 else 0) + |NameErrors(req.name)|
  {
    (if req.id == 0 then [FieldError("Id", "required")] else []) + NameErrors(req.name)
  }

  /** The payload of an envelope: nothing (JSON null), a message, one category, a list
      of categories, or a failure value serialised as it is. */
  datatype Data =
    | Null
    | Message(text: string)
    | Item(category: Category)
    | Items(categories: seq<Category>)
    | Raw(failure: Failure)

  /** `web.WebResponse`. */
  datatype WebResponse = WebResponse(code: int, status: string, data: Data)
}
