/**
 * The process-wide book store that every screen reads and mutates. Its implementation
 * is not part of this model: each mutator records that it was called, with which
 * arguments, and leaves the stored books in a state the model does not constrain.
 */
module LibraryStore {
  import opened Books

  /** One call into the store's mutating interface. */
  datatype LibraryCall =
    | AddNewCall(book: Book)
    | UpdateCall(book: Book)
    | DeleteCall(book: Book)
    | ReorderBooksCall(bookToMove: Book, bookAtDestination: Book)

  class Library {
    // The store's effect on `books` is outside the model: each mutator leaves it arbitrary.
    /** `Library.books`: the stored books, in stored order. */
    var books: seq<Book>
    /** Every mutating call made so far, oldest first. */
    var calls: seq<LibraryCall>

    constructor (books: seq<Book>)
      ensures this.books == books && calls == []
    {
      this.books := books;
      calls := [];
    }

    method AddNew(book: Book)
      modifies this
      ensures calls == old(calls) + [AddNewCall(book)]
    {
      calls := calls + [AddNewCall(book)];
      books := *;
    }

    method Update(book: Book)
      modifies this
      ensures calls == old(calls) + [UpdateCall(book)]
    {
      calls := calls + [UpdateCall(book)];
      books := *;
    }

    method Delete(book: Book)
      modifies this
      ensures calls == old(calls) + [DeleteCall(book)]
    {
      calls := calls + [DeleteCall(book)];
      books := *;
    }

    method ReorderBooks(bookToMove: Book, bookAtDestination: Book)
      modifies this
      ensures calls == old(calls) + [ReorderBooksCall(bookToMove, bookAtDestination)]
    {
      calls := calls + [ReorderBooksCall(bookToMove, bookAtDestination)];
      books := *;
    }
  }
}
