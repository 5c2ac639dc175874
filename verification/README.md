# Category CRUD service — a Dafny model

This project models the core of a small Go REST service that manages one entity,
`Category {Id, Name}`, stored in a MySQL table and exposed under `/api/categories`.
The Go code signals almost every error by panicking (`FindById` instead returns its
not-found error, see below) and lets one recovery hook (the router's
`PanicHandler`) turn the panic value into an HTTP status. The model replaces that
control flow with an explicit `Result` whose failures are `NotFound(message)`,
`Validation(message)` and `Other(desc)`, and proves what each layer does with it.

Modules, one per source component:

- `Failures` (failures.dfy): `Failure`, `Result` (usable with `:-`) and `Option`.
- `Domain` (domain.dfy): `Category` and Go's zero value `{0, ""}`.
- `Http` (http.dfy): the status codes 200, 400, 404 and 500 and their reason phrases
  from RFC 9110 (sections 15.3.1, 15.5.1, 15.5.5, 15.6.1).
- `Strconv` (strconv.dfy): `strconv.Atoi` and `strconv.Itoa` for a 64-bit Go `int`, used to
  parse the `categoryId` path segment.
- `Repository` (repository.dfy): the table as rows in insertion order plus the next
  AUTO_INCREMENT value, and `Save`, `Update`, `Delete`, `FindById`, `FindAll` as
  functions over it (`FindAll` as a method with the source's scan loop). A `Driver`
  parameter says whether the database accepted an `INSERT`, `UPDATE` or `DELETE`; the two
  queries take a `Cursor` instead, which says how the row cursor behaved.
  `RepositoryProperties` (repository_properties.dfy) holds the round trips and frame lemmas.
- `Web` (web.dfy): the request bodies, their validation tags as predicates and as the
  validator's first-failing-tag walk, and the `{code, status, data}` envelope.
  `WebProperties` (web_properties.dfy) states the tags as length bounds.
- `Exception` (exception.dfy): `NewNotFoundError`, `PanicNotFoundError` and the classifier
  `ErrorHandler` with its three branches. `ExceptionProperties` (exception_properties.dfy)
  states the priority and the envelopes.
- `Controller` (controller.dfy): the five handlers. Four take the service operation they
  call as a function parameter; `GetAllCategory`, whose service call has no argument, takes
  that call's `Result` value.
- `Router` (router.dfy): `Serve`, the recovery point that app/router.go:18 installs. It also
  holds end-to-end lemmas over handler, classifier and path parsing.

The service layer is not part of this model. It lies outside the modelled core, so every
handler takes it as an arbitrary function and nothing is assumed about its transactions,
its existence pre-checks or where it calls the validator.

`FindById` does not raise a not-found failure. It returns `domain.Category{}` with a plain
`errors.New("category not found")` (repository/category_repository_impl.go:59-60), and a
caller converts that with `PanicNotFoundError`. See `Repository.FindById` and
`ExceptionProperties.MissingRowIs404`.

Both queries read their cursor with `rows.Next()` and never consult `rows.Err()`. A cursor
that stops early because of an error therefore ends the loop quietly. `FindAll` then
returns the rows read so far as a success, and `FindById` reports the id as not found.
The `Repository.Cursor` outcome `EndsEarly(n)` models this.

## Model

| member | source | states |
|---|---|---|
| Repository.Save | repository/category_repository_impl.go:18-28 | The returned category keeps the given name and carries the store-assigned id. The table gains exactly that row, appended after the existing rows, which are untouched. On a valid table the id is fresh (no existing row has it) and non-zero, and the table stays valid. A driver error is an `Other` failure. |
| Repository.Rename | repository/category_repository_impl.go:32-34 | `SET name = ? WHERE id = ?` keeps the length, every row's id and position, and renames exactly the rows whose id matches. |
| Repository.Update | repository/category_repository_impl.go:31-37 | Returns exactly the category it was given, whether or not a row matched. The AUTO_INCREMENT counter is unchanged. An absent id leaves the table unchanged. Validity is preserved. A driver error is an `Other` failure. |
| Repository.Without | repository/category_repository_impl.go:41-43 | The rows a delete keeps are never more than the old rows, and an absent id changes nothing. |
| Repository.WithoutMembers | repository/category_repository_impl.go:41-43 | The rows a delete keeps are exactly the old rows with another id, and no row with the id is left. |
| Repository.WithoutKeepsDistinct | repository/category_repository_impl.go:41-43 | If the old rows have distinct ids, so do the rows a delete keeps. |
| Repository.Delete | repository/category_repository_impl.go:40-44 | After a delete no row has the id, and the remaining rows are exactly the old rows with another id. An absent id is a no-op. The counter is unchanged and validity is preserved. A driver error is an `Other` failure. |
| Repository.FirstWithId | repository/category_repository_impl.go:56-61 | The cursor's first match is absent exactly when no row has the id. Otherwise it is a row of the table with that id, and with distinct ids it is the row holding that id. |
| Repository.FindById | repository/category_repository_impl.go:47-63 | No error exactly when the id is present and the cursor reaches its first row; the result is then that row (non-zero id on a valid table). Otherwise the result is the zero category together with "category not found", never a bare default. A failed `QueryContext` or `Scan` is an `Other` failure. |
| Repository.FindAll | repository/category_repository_impl.go:66-82 | The scan loop always returns a prefix of the table in table order. It is the whole table, each row once, unless the cursor stopped early at exactly that length. A cursor that stops after `n` rows gives exactly the first `n` rows, or the whole table when it has no more than `n`. A cursor that delivers every row gives exactly the table's rows, and an empty table gives an empty list. A failed `QueryContext` or `Scan` is an `Other` failure. |
| RepositoryProperties.SaveThenFindById | repository/category_repository_impl.go:18-28 | Looking up the id that `Save` assigned yields the saved category with no error. |
| RepositoryProperties.SaveThenDelete | repository/category_repository_impl.go:40-44 | Deleting the category just saved restores the previous rows, and the id then reads back as not found. The counter does not go back. |
| RepositoryProperties.WithoutRemovesAt | repository/category_repository_impl.go:41-43 | With distinct ids, deleting the row at position k leaves `rows[..k] + rows[k+1..]`: every other row keeps its order. |
| RepositoryProperties.DeleteKeepsOrder | repository/category_repository_impl.go:40-44 | On a valid table, `Delete` of a present id removes that row and keeps the order of the rest. |
| RepositoryProperties.DeleteIdempotent | repository/category_repository_impl.go:40-44 | A second delete of the same id leaves the table as the first one did. |
| RepositoryProperties.UpdateInPlace | repository/category_repository_impl.go:31-37 | On a valid table, updating a present id replaces that row by the given category at the same position. No other row changes. |
| RepositoryProperties.UpdateThenFindById | repository/category_repository_impl.go:31-37 | After updating a present id, the lookup returns the category that was given. |
| RepositoryProperties.SaveAllAppends | repository/category_repository_impl.go:18-28 | N inserts leave the old rows followed by exactly N new rows, with the inserted names in insertion order under consecutive ids. |
| RepositoryProperties.TwoInsertsListInOrder | test/category_controller_test.go:285-318 | Two inserts into a truncated table list as ids 1 and 2 in insertion order. |
| RepositoryProperties.ElectronicsCreateAndRename | repository/category_repository_impl.go:18-37 | Inserting "Electronics" into an empty table gives id 1. Renaming it "Gadgets" keeps id 1. |
| RepositoryProperties.ElectronicsReadAndDelete | repository/category_repository_impl.go:40-63 | "Gadgets" reads back under id 1. Deleting it empties the table, and id 1 then reads as not found. |
| Strconv.Atoi | controller/category_controller_impl.go:40-41 | Succeeds exactly on an optional sign followed by digits whose value fits a 64-bit `int`, and returns that value. Every failure is an `Other` failure, either "invalid syntax" or "value out of range". A well-formed string fails only on range. A leading run of digits above 2^64 - 1 is a range error even when a non-digit follows; otherwise a malformed string is a syntax error. |
| Strconv.OverflowWinsOverTrailingGarbage | controller/category_controller_impl.go:40-41 | Digits whose value exceeds 2^64 - 1, followed by any non-digit, give "value out of range". |
| Strconv.OverflowBeforeSyntaxError | controller/category_controller_impl.go:40-41 | `Atoi("99999999999999999999x")` is a range error, not a syntax error. |
| Strconv.AtoiItoa | test/category_controller_test.go:187 | Every 64-bit `int` written by `Itoa` parses back to itself, so a path built from an id names that id. |
| Strconv.NonNumericRejected | controller/category_controller_impl.go:55-56 | A segment with a non-digit after the optional sign is rejected. |
| Web.NameErrors | model/web/category_request.go:4 | The tag walk reports nothing exactly when the name is valid. It reports `required` exactly for "", and `max` exactly for names over 255 characters. There is at most one error, and `min` is never the failing tag. |
| Web.CreateErrors | model/web/category_request.go:3-5 | A create request has no field errors exactly when it is valid. The one error is `required` exactly for an empty name and `max` exactly for a name over 255 characters. |
| Web.UpdateErrors | model/web/category_request.go:7-10 | An update request has no field errors exactly when it is valid. The `Id` `required` error is present exactly when the id is 0. The `Name` `required` error is present exactly for an empty name, and `max` exactly for a name over 255 characters. A zero id's error comes first, before any `Name` error; with a non-zero id the errors are the `Name` walk's alone. A zero id adds exactly one error to the `Name` walk's, so `{0, "abc"}` gets only the `Id` error. There are at most two errors. |
| WebProperties.CreateValidIffLength | model/web/category_request.go:4 | A create request is valid iff 1 <= length of the name <= 255, counted in characters. |
| WebProperties.UpdateValidIffIdAndLength | model/web/category_request.go:8-9 | An update request is valid iff the id is non-zero and 1 <= length of the name <= 255. Negative ids pass. |
| WebProperties.SameNameRule | model/web/category_request.go:4-9 | Update validity is exactly create validity of the name plus a non-zero id. |
| WebProperties.Boundaries | model/web/category_request.go:4 | "" fails `required`. 255 characters pass. 256 fail `max`. Id -1 passes. Id 0 with "" fails both fields, in field order. |
| Exception.NewNotFoundError | exception/not_found_error.go:7-9 | Builds a not-found failure that stores the message unchanged. |
| Exception.PanicNotFoundError | exception/not_found_error.go:11-15 | A nil error continues. A non-nil error aborts with a not-found failure carrying its message. |
| Exception.NotFoundBranch | exception/error_handler.go:43-62 | Answers exactly the not-found failures, with 404 and the failure's message as data. |
| Exception.ValidationBranch | exception/error_handler.go:22-41 | Answers exactly the validation failures, with 400 and the aggregated message as data. |
| Exception.InternalServerError | exception/error_handler.go:64-75 | Answers any failure with 500, carrying the failure value itself as data. |
| Exception.ErrorHandler | exception/error_handler.go:10-20 | Total: every failure gets 404, 400 or 500. It is 404 iff not-found, 400 iff validation, 500 iff anything else. The envelope code equals the status written, and the envelope status is that code's reason phrase. |
| ExceptionProperties.ExactlyOneBranchWrites | exception/error_handler.go:10-20 | The response is the not-found branch's when it answers, else the validation branch's, else the internal-error branch's. The first two never both answer. |
| ExceptionProperties.ClassifiedEnvelopes | exception/error_handler.go:22-75 | The three envelopes in full: `{404, "Not Found", message}`, `{400, "Bad Request", message}`, `{500, "Internal Server Error", failure}`. |
| ExceptionProperties.PanicNotFoundErrorIs404 | exception/not_found_error.go:11-15 | A failure raised by `PanicNotFoundError` is always answered with 404 and the error's message, never 400 or 500. |
| ExceptionProperties.MissingRowIs404 | repository/category_repository_impl.go:59-60 | A not-found lookup passed through `PanicNotFoundError` becomes a 404 with "category not found". A lookup that found its row continues. |
| ExceptionProperties.CursorErrorReadsAsMissing | repository/category_repository_impl.go:56-61 | A cursor that stops before its first row reads as a missing row. Even a present id is then answered with 404 "category not found". |
| Controller.ReadFromRequestBody | helper/json.go:8-13 | A decoded body continues with the request. A malformed body is an `Other` failure, not a validation failure. |
| Controller.CreateCategory | controller/category_controller_impl.go:22-34 | Success exactly when the body decodes and the service succeeds. The envelope is then `{200, "OK", the service's category}`. A decode failure or a service failure is passed on unchanged. |
| Controller.UpdateCategory | controller/category_controller_impl.go:36-52 | The body is decoded first, then the path is parsed. The service gets the body's name under the path's id. Success gives `{200, "OK", the service's category}`. Each failure, in that order, is passed on unchanged. |
| Controller.DeleteCategory | controller/category_controller_impl.go:54-65 | The path is parsed, then the service is called. Success gives `{200, "OK", null}`. Each failure is passed on unchanged. |
| Controller.GetCategoryById | controller/category_controller_impl.go:67-79 | The path is parsed, then the service is called. Success gives `{200, "OK", the service's category}`. Each failure is passed on unchanged. |
| Controller.GetAllCategory | controller/category_controller_impl.go:81-90 | Success exactly when the service succeeds. The envelope data is then exactly the service's list. The service's failure is passed on unchanged. |
| Router.Serve | app/router.go:18 | A handler's envelope is written with status 200. A failure is never answered with 200: it gets 404, 400 or 500 by its kind. |
| Router.EveryResponseWellFormed | controller/category_controller_impl.go:27-31 | For any inputs and any service, every handler's response has status 200, 400, 404 or 500. The envelope code equals that status, and the envelope status is its reason phrase. |
| Router.NonIntegerPathIs500 | controller/category_controller_impl.go:40-41 | A path segment `Atoi` rejects gives 500 for update, delete and get. The answer is the same whatever the service would have done. |
| Router.MalformedBodyIs500 | helper/json.go:8-13 | A malformed body gives 500 for create and update, whatever the service would have done. |
| Router.PathIdOverridesBody | controller/category_controller_impl.go:40-42 | The id inside an update body has no effect on the outcome. |
| Router.ServiceFailureReachesClassifier | controller/category_controller_impl.go:44 | A service failure, from any handler, is answered exactly as `ErrorHandler` answers that failure. |
| Router.ItoaPathReachesService | controller/category_controller_impl.go:67-79 | A GET of `Itoa(id)` hands the service `id`. A found category is served as `{200, "OK", category}`. A failure goes to the classifier. |
| Router.DeleteSuccessHasNoData | controller/category_controller_impl.go:59-62 | A successful delete is answered `{200, "OK", null}`. |

## Left out

- The service layer (service/category_service_impl.go) is not part of this model. It is a parameter of each handler. Its transactions, commit and rollback, existence pre-checks and validator call are not modelled.
- Dependency wiring and bootstrap (injector.go, simple/injector.go, main.go), the connection pool (app/database.go) and the route table (app/router.go) are left out: they have no behaviour of their own. Only the recovery hook is modelled, as `Router.Serve`.
- JSON decoding and encoding (helper/json.go) are left out. A body arrives already decoded or as `Malformed`. A failure to encode a response is not modelled.
- Cursor closing (helper/rows.go), `context.Context` cancellation, SQL text, the MySQL driver, HTTP headers and the authentication middleware are left out: they are I/O or outside the modelled code.
- Concurrency between requests is left out. The modelled code has no shared state. The lookup-then-mutate race belongs to the service.
- Exception.InternalServerError: the data is the failure value itself, not its JSON encoding. Go would encode, for example, a `*errors.errorString` as `{}`.
- Exception.ValidationBranch: the aggregated message of `validator.ValidationErrors` is carried as an opaque string. The validator library's wording is not modelled, and `Web.FieldError` lists are not turned into that text.
- Strconv.Atoi: the `*strconv.NumError` text quotes the input with plain double quotes; `strconv.Quote` escaping is not modelled. Go's `int` is taken to be 64 bits wide.
- Repository.Save: a failure of `LastInsertId` after the INSERT ran is folded into the same `Other` failure and reports no table. Undoing that row is the service's transaction's job. The int64-to-int conversion and AUTO_INCREMENT exhaustion are not modelled: ids are unbounded.
- Repository.FindAll: on an empty table Go returns a nil slice, which encodes as JSON null; the model returns the empty sequence. A `Scan` failure part-way through the loop panics, so no partial listing exists; the model reports it as the `Breaks` outcome without saying at which row it happened.
- The service's `web.CategoryResponse` has the same fields as `domain.Category`, so both are modelled as `Domain.Category`.
