/** The records the pages receive from the backend, reduced to the fields the
    modelled logic reads, and the abstract outcome of a backend request. */
module Entities {
  import opened JsText

  /** A user account (`currentUser`, the rows of the users page); a field the
      backend leaves out reads as `""`. */
  datatype User = User(id: string, nombre: string, email: string, telefono: string)

  /** An author of the catalogue. */
  datatype Author = Author(id: string, nombre: string, apellido: string)

  /** The book a loan refers to. */
  datatype Book = Book(id: string, titulo: string)

  /** A loan; `libro` is `None` when the backend sends a loan without its book. */
  datatype Loan = Loan(id: string, estado: string, libro: Option<Book>)

  /** How a `fetch` to the backend ends, as the pages see it: `res.ok`; a
      rejection whose JSON body has an `error` field (`""` when it is absent or
      empty); or an exception (no connection, or a body that is not JSON). */
  datatype ApiReply = Accepted | Rejected(error: string) | NoConnection
}
