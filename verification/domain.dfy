/** The one entity of the service. */
module Domain {

  /** A row of the `category` table, and the `{id, name}` shape the service returns. */
  datatype Category = Category(id: int, name: string)

  /** Go's zero value `domain.Category{}`. */
  const ZeroCategory := Category(0, "")
}
