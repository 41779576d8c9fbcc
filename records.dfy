/**
 * Rows of the three tables. A nullable column is an `Option`; the
 * publication year column holds what `pd.to_numeric(..., errors='coerce')`
 * may see or produce.
 */
module Records {
  import opened Wrappers

  type Isbn = string
  type UserId = int

  /** A Year-Of-Publication cell: absent (NaN/None), a number, or text that does not parse as one. */
  datatype YearCell = Missing | Number(year: int) | NonNumeric

  datatype Book = Book(
    isbn: Isbn,
    title: Option<string>,
    author: Option<string>,
    year: YearCell,
    publisher: Option<string>,
    imageUrl: Option<string>)

  datatype User = User(id: UserId, age: Option<int>)

  datatype Rating = Rating(user: UserId, isbn: Isbn, value: int)
}
