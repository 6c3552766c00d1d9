# ReadMe reading list — Dafny model

A model of the logic of the ReadMe iOS app, a personal reading list. Users add books
(title, author, optional cover photo), mark each one "to read" or finished, write short
reviews, sort and reorder the list, and delete entries. The model covers four pieces:

- the `Book` record, its placeholder `mockBook`, and the fields that survive its `Codable` round trip (`book.dfy`);
- the library screen's section projection: the snapshot with the add-new placeholder,
  the "Read Me" bucket and the "Finished" bucket, each sorted by title, by author or
  kept in stored order (`book_order.dfy`, `snapshot.dfy`, `projection.dfy`);
- the library screen's data source and controller: the current sort style, which rows
  may be edited or moved, the move guard, and delete-then-recompute (`library_table.dfy`);
- the add-book form's validation (`add_book.dfy`) and the detail screen's draft of one
  book, edited in place and committed on save (`detail.dfy`).

The book store that every screen calls (`Library`) is not among the modelled files. It
is a class whose `books` field is the stored list. Each of its mutators records the call
it received (`calls`) and leaves `books` arbitrary (`library_store.dfy`). Properties about
the screens are therefore stated as "which store call was made, with which book,
and how many times", followed by "the list was laid out again from whatever the store
now holds". The locale-aware, case-insensitive string comparison is a parameter
`compare`. Sortedness is proved for every comparison that is a total preorder.

The sort style is set to stored order once, when the view loads
(`LibraryTableViewController.ViewDidLoad`). Every later appearance re-applies the
current style (`LibraryTableViewController.ViewWillAppear`).

## Model

| member | source | states |
|---|---|---|
| `Books.MockBookIsBlank` | readme/Book.swift:18 | the placeholder has empty title and author, is marked to read, and has no review and no image |
| `Books.BookEquality` | readme/Book.swift:10-16 | two books are equal exactly when all five stored fields are equal, review and read flag included |
| `BookCoding.Encode` | readme/Book.swift:21-27 | the persisted form holds only the coding keys `title`, `author`, `review`, `readMe`; `review` appears exactly when the book has one |
| `BookCoding.Decode` | readme/Book.swift:21-27 | a decoded book never has an image; a missing title is a key-not-found error; on success title, author and flag are the container's entries and the review is present exactly when the container holds a string for it |
| `BookCoding.DecodeEncode` | readme/Book.swift:21-27 | decoding an encoded book returns title, author, review and flag unchanged, with no image |
| `BookCoding.EncodeDecode` | readme/Book.swift:21-27 | re-encoding a successfully decoded book decodes to the same book |
| `BookCoding.ImageNotPersisted` | readme/Book.swift:16-27 | the image has no effect on the persisted form |
| `BookOrder.IncreasingOrderIsStrict` | readme/LibraryTableViewController.swift:126-128 | for a total-preorder comparison the sort closure is never true both ways, implies the pair is in order, and when false the pair may stand reversed |
| `BookOrder.Insert` | readme/LibraryTableViewController.swift:125-128 | inserting into a list adds exactly that book to its multiset of books; the book goes ahead of the books it ties with (`InsertTies`) |
| `BookOrder.Sort` | readme/LibraryTableViewController.swift:125-128 | sorting by title or author returns a permutation of its input |
| `BookOrder.InsertAscending` | readme/LibraryTableViewController.swift:125-128 | for a total-preorder comparison, inserting into an ascending list keeps it ascending |
| `BookOrder.SortAscending` | readme/LibraryTableViewController.swift:125-128 | for a total-preorder comparison, a sorted list is ascending on the chosen key |
| `BookOrder.TiesMembers` | readme/LibraryTableViewController.swift:126-128 | the ties of a book in a list are exactly the listed books that compare the same as it on the key |
| `BookOrder.InsertTies` | readme/LibraryTableViewController.swift:126-128 | when no listed book strictly before the new one ties with it, inserting puts the new book ahead of every listed book it ties with and keeps the order of the other ties |
| `BookOrder.SortStable` | readme/LibraryTableViewController.swift:126-128 | for a total-preorder comparison, sorting is stable: the books that tie with any book keep their input order |
| `Snapshots.IndexOfSection` | readme/LibraryTableViewController.swift:139 | a section's index is the position of its first occurrence; it is absent exactly when the snapshot lacks the section |
| `Snapshots.AppendSections` | readme/LibraryTableViewController.swift:120 | new sections go after the existing ones, empty, and earlier sections are unchanged |
| `Snapshots.AppendItems` | readme/LibraryTableViewController.swift:132-134 | books are appended at the end of the named section; every other section is unchanged |
| `Snapshots.ItemIdentifier` | readme/LibraryTableViewController.swift:144 | a row yields a book exactly when its section and row exist, and that book is the one at that row of that section |
| `Projection.Bucket` | readme/LibraryTableViewController.swift:121 | a bucket is no longer than the stored list and holds only books with the given flag |
| `Projection.BucketMembership` | readme/LibraryTableViewController.swift:121 | a book is in a bucket exactly when it is stored and carries that bucket's flag |
| `Projection.BucketsPartition` | readme/LibraryTableViewController.swift:121 | the two buckets together are a permutation of the stored books |
| `Projection.BucketKeepsOrder` | readme/LibraryTableViewController.swift:121 | each bucket keeps the relative order of the stored list |
| `Projection.GroupByReadMe` | readme/LibraryTableViewController.swift:121 | the grouping has an entry for a flag exactly when its bucket is non-empty, and that entry is the bucket |
| `Projection.GroupKeys` | readme/LibraryTableViewController.swift:121 | a flag has a group exactly when some stored book carries it |
| `Projection.Arrange` | readme/LibraryTableViewController.swift:124-131 | laying out a bucket under any style returns a permutation of it |
| `Projection.Project` | readme/LibraryTableViewController.swift:118-134 | the laid-out list has exactly three sections, the placeholder alone in the first, then the to-read and finished sections each holding exactly the stored books with that flag |
| `Projection.ProjectionShape` | readme/LibraryTableViewController.swift:120-134 | the list has exactly the sections add-new, Read Me, Finished at positions 0, 1, 2, and the add-new section holds only the placeholder |
| `Projection.ProjectionPartition` | readme/LibraryTableViewController.swift:121-132 | every stored book to read is in Read Me, every other stored book is in Finished, and together they are a permutation of the store |
| `Projection.ProjectionSorted` | readme/LibraryTableViewController.swift:124-128 | by title, both book sections are ascending by title; by author, ascending by author |
| `Projection.ProjectionStable` | readme/LibraryTableViewController.swift:121-132 | under the title or author style, books of a section with equal keys appear in their stored order |
| `Projection.ProjectionKeepsStoredOrder` | readme/LibraryTableViewController.swift:121-130 | in stored-order style both book sections keep the store's relative order and do not depend on the string comparison |
| `LibraryTable.MoveRequest` | readme/LibraryTableViewController.swift:159-165 | a move is accepted exactly when source and destination differ, lie in the same section and both rows exist; it names the two books at those rows |
| `LibraryTable.SectionFor` | readme/LibraryTableViewController.swift:132 | a group of books never goes to the add-new section, and goes to the to-read section exactly when its flag is true |
| `LibraryTable.PlaceholderNeverMoves` | readme/LibraryTableViewController.swift:159-165 | on a laid-out list no move from or to the add-new section is accepted |
| `LibraryTable.AcceptedMoveStaysInBucket` | readme/LibraryTableViewController.swift:159-168 | an accepted move on a laid-out list reorders two stored books with the same flag, to read exactly when the move is in section 1 |
| `LibraryTable.LibraryDataSource.constructor` | readme/LibraryTableViewController.swift:114 | a new data source starts with the title style and an empty snapshot |
| `LibraryTable.LibraryDataSource.Update` | readme/LibraryTableViewController.swift:116-136 | the style becomes the argument and the applied snapshot is the projection of the stored books under it, whatever order the groups are visited in |
| `LibraryTable.LibraryDataSource.CanEditRowAt` | readme/LibraryTableViewController.swift:138-140 | a row is editable exactly when it is not in the add-new section (section 0 of a laid-out list) |
| `LibraryTable.LibraryDataSource.CommitEditing` | readme/LibraryTableViewController.swift:142-148 | a delete of an existing row makes one store delete call with that row's book and re-lays out the list in the current style; anything else changes nothing |
| `LibraryTable.LibraryDataSource.CanMoveRowAt` | readme/LibraryTableViewController.swift:150-156 | a row is immovable exactly when the style is stored order and the row is outside the Read Me section |
| `LibraryTable.LibraryDataSource.MoveRow` | readme/LibraryTableViewController.swift:158-170 | a rejected move leaves store and list unchanged; an accepted one makes one store reorder call with the two books, then re-lays out the list in the same style |
| `LibraryTable.LibraryTableViewController.ViewDidLoad` | readme/LibraryTableViewController.swift:58-67 | loading creates the data source and lays the list out in stored order |
| `LibraryTable.LibraryTableViewController.ViewWillAppear` | readme/LibraryTableViewController.swift:69-72 | each appearance keeps the current style and lays the list out again under it |
| `LibraryTable.LibraryTableViewController.SortButtonTapped` | readme/LibraryTableViewController.swift:31-44 | a sort button makes its style current and lays the list out under it |
| `LibraryStore.Library.AddNew` | readme/AddBookTableViewController.swift:27 | the store records one add call with the given book |
| `LibraryStore.Library.Update` | readme/DetailViewController.swift:36 | the store records one update call with the given book |
| `LibraryStore.Library.Delete` | readme/LibraryTableViewController.swift:145 | the store records one delete call with the given book |
| `LibraryStore.Library.ReorderBooks` | readme/LibraryTableViewController.swift:168 | the store records one reorder call with the book to move and the book at the destination |
| `Picker.EditedImage` | readme/AddBookTableViewController.swift:49 | an image is taken exactly when the result holds an image under the edited-image key |
| `Picker.OriginalImageIgnored` | readme/DetailViewController.swift:69 | an original image without an edited one is not taken |
| `AddBook.NewBookFromForm` | readme/AddBookTableViewController.swift:22-26 | a book is made exactly when both texts are present and non-empty; it carries them unchanged, is marked to read, has no review and has the picked image |
| `AddBook.NewBookIsNotPlaceholder` | readme/AddBookTableViewController.swift:24-26 | a book made by the form is never equal to the placeholder |
| `AddBook.WhitespaceAccepted` | readme/AddBookTableViewController.swift:24-25 | any non-empty title and author made only of spaces, tabs and line breaks are accepted unchanged |
| `AddBook.AddBookTableViewController.constructor` | readme/AddBookTableViewController.swift:15 | the form starts with no picked image |
| `AddBook.AddBookTableViewController.Cancel` | readme/AddBookTableViewController.swift:17-19 | cancel leaves the screen and changes nothing else |
| `AddBook.AddBookTableViewController.SaveNewBook` | readme/AddBookTableViewController.swift:21-29 | a valid form makes exactly one store add call with the form's book and leaves the screen; an invalid one changes nothing and stays |
| `AddBook.AddBookTableViewController.ImagePickerDidFinish` | readme/AddBookTableViewController.swift:48-53 | a picked edited image becomes the new book's image; any other result changes nothing |
| `Detail.BookmarkFor` | readme/DetailViewController.swift:31 | the filled bookmark is shown exactly for a book to read |
| `Detail.ApplyEdit` | readme/DetailViewController.swift:29-78 | no edit changes title or author; toggling negates the flag only; ending review editing sets the review to the text, present even when empty; picking replaces the image only for an edited image |
| `Detail.EditsKeepIdentity` | readme/DetailViewController.swift:29-78 | any sequence of draft edits keeps the title and author |
| `Detail.ToggleTwiceRestores` | readme/DetailViewController.swift:30 | toggling the flag twice restores the draft |
| `Detail.DetailViewController.constructor` | readme/DetailViewController.swift:57-60 | the draft starts as the book the screen was opened on |
| `Detail.DetailViewController.ViewDidLoad` | readme/DetailViewController.swift:53-54 | the bookmark shown matches the draft's flag |
| `Detail.DetailViewController.ToggleReadMe` | readme/DetailViewController.swift:29-33 | the draft's flag is negated and the bookmark shown matches the new flag |
| `Detail.DetailViewController.TextViewDidEndEditing` | readme/DetailViewController.swift:77-80 | the draft's review becomes the text view's text |
| `Detail.DetailViewController.ImagePickerDidFinish` | readme/DetailViewController.swift:68-73 | a picked edited image replaces the draft's image; any other result changes nothing |
| `Detail.DetailViewController.SaveBook` | readme/DetailViewController.swift:35-38 | saving makes exactly one store update call with the current draft and leaves the screen, with the draft and the bookmark unchanged; no other draft operation calls the store |

## Left out

- LibraryStore.Library.AddNew: the store's own effect on its books is not modelled. Its implementation and persistence are not part of this model, so `books` is arbitrary after the call.
- LibraryStore.Library.Update: as for `AddNew`; matching the stored entry by title and author is not modelled.
- LibraryStore.Library.Delete: as for `AddNew`.
- LibraryStore.Library.ReorderBooks: as for `AddNew`.
- The store is one shared global in the app. In the model each screen holds a `library` reference, and nothing states that the screens share the same object. No stated property depends on sharing.
- BookOrder.Sort: Swift's `sorted(by:)` algorithm is replaced by an insertion sort. What the platform promises is proved of it: the result is a permutation (`Sort`), ascending under the comparison (`SortAscending`), and, for a total-preorder comparison, stable, so books with equal keys keep their input order (`SortStable`).
- Locale rules and case folding of the string comparison are not modelled. The comparison is a parameter, assumed to be a total preorder only where sortedness or stability is stated.
- UI rendering is not modelled: cells, header views and heights, tint colours, labels, image views, the text-view toolbar, first-responder chaining, and printing the documents directory.
- The segue that opens the detail screen for the selected row is not modelled (`showDetailView`), nor is the detail screen's coder initialiser that always traps.
- Presenting the image picker, the camera-availability check and dismissing the picker are platform I/O. The picker's result dictionary is an input.
- The diffable data source's `apply` only installs the snapshot. Animation and the platform's diffing are not modelled.
- The platform's trap on duplicate item identifiers in a snapshot is not modelled.
- Index paths are natural numbers. Negative indices cannot arise from the table view.
- The JSON text of the persisted form is not modelled. A container is a map from key names to string, boolean or null values.
- The text in the detail screen's text view is a parameter of `TextViewDidEndEditing`. Filling the text view from the review when the view loads is UI.
