/** How the classifier's three branches divide the failures between them. */
module ExceptionProperties {
  import opened Failures
  import opened Web
  import opened Exception
  import Repository

  /** Exactly one branch writes a response for any failure: the first that accepts it in
      the fixed order not-found, validation, internal error. */
  lemma ExactlyOneBranchWrites(f: Failure)
    ensures NotFoundBranch(f).Some? ==> ErrorHandler(f) == NotFoundBranch(f).value
    ensures NotFoundBranch(f).None? && ValidationBranch(f).Some?
        ==> ErrorHandler(f) == ValidationBranch(f).value
    ensures NotFoundBranch(f).None? && ValidationBranch(f).None?
        ==> ErrorHandler(f) == InternalServerError(f)
    ensures !(NotFoundBranch(f).Some? && ValidationBranch(f).Some?)
  {
  }

  /** The three envelopes in full, with the reason phrases of RFC 9110. */
  lemma ClassifiedEnvelopes(message: string, desc: string)
    ensures ErrorHandler(NotFound(message))
         == Response(404, WebResponse(404, "Not Found", Message(message)))
    ensures ErrorHandler(Validation(message))
         == Response(400, WebResponse(400, "Bad Request", Message(message)))
    ensures ErrorHandler(Other(desc))
         == Response(500, WebResponse(500, "Internal Server Error", Raw(Other(desc))))
  {
  }

  /** Whatever non-nil error `PanicNotFoundError` is given, the failure it raises is
      answered with 404 and that error's message, never with 400 or 500. */
  lemma PanicNotFoundErrorIs404(message: string)
    ensures PanicNotFoundError(Some(message)).Err?
    ensures ErrorHandler(PanicNotFoundError(Some(message)).failure)
         == Response(404, WebResponse(404, "Not Found", Message(message)))
  {
  }

  /** A lookup of an id the table does not hold, passed through `PanicNotFoundError`, is
      answered with 404 and "category not found"; a lookup that finds its row lets the
      caller carry on. */
  lemma MissingRowIs404(s: Repository.Store, id: int)
    ensures Repository.FindById(s, id, Repository.Delivers).Ok?
    ensures var lookup := Repository.FindById(s, id, Repository.Delivers).value;
      && (Repository.HasId(s.rows, id) <==> PanicNotFoundError(lookup.err).Ok?)
      && (!Repository.HasId(s.rows, id) ==>
            ErrorHandler(PanicNotFoundError(lookup.err).failure)
            == Response(404, WebResponse(404, "Not Found", Message("category not found"))))
  {
  }

  /** A cursor that stops before its first row, with the error left unchecked, reads as a
      missing row: even a present id is then answered with 404 "category not found". */
  lemma CursorErrorReadsAsMissing(s: Repository.Store, id: int)
    ensures Repository.FindById(s, id, Repository.EndsEarly(0)).Ok?
    ensures var lookup := Repository.FindById(s, id, Repository.EndsEarly(0)).value;
      ErrorHandler(PanicNotFoundError(lookup.err).failure)
      == Response(404, WebResponse(404, "Not Found", Message("category not found")))
  {
  }
}
