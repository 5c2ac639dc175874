/** What the validation tags accept, stated as plain length bounds. */
module WebProperties {
  import opened Web

  /** A create request is valid exactly when its name has between 1 and 255 characters. */
  lemma CreateValidIffLength(req: CategoryCreateRequest)
    ensures ValidCreate(req) <==> 1 <= |req.name| <= 255
  {
  }

  /** An update request is valid exactly when its id is non-zero and its name has between
      1 and 255 characters; negative ids pass. */
  lemma UpdateValidIffIdAndLength(req: CategoryUpdateRequest)
    ensures ValidUpdate(req) <==> req.id != 0 && 1 <= |req.name| <= 255
  {
  }

  /** Create and update apply the same rule to the name. */
  lemma SameNameRule(id: int, name: string)
    ensures ValidUpdate(CategoryUpdateRequest(id, name))
        <==> id != 0 && ValidCreate(CategoryCreateRequest(name))
  {
  }

  /** The boundaries: "" is refused for `required`, 255 characters pass, 256 are refused
      for `max`, and an id of -1 passes `required`. */
  lemma Boundaries()
    ensures CreateErrors(CategoryCreateRequest("")) == [FieldError("Name", "required")]
    ensures CreateErrors(CategoryCreateRequest(seq(255, _ => 'a'))) == []
    ensures CreateErrors(CategoryCreateRequest(seq(256, _ => 'a'))) == [FieldError("Name", "max")]
    ensures UpdateErrors(CategoryUpdateRequest(-1, "x")) == []
    ensures UpdateErrors(CategoryUpdateRequest(0, "")) == [FieldError("Id", "required"), FieldError("Name", "required")]
  {
  }
}
