/**
 * The detail screen (readme/DetailViewController.swift): a draft copy of one book that
 * the user edits and, on save, hands back to the store.
 */
module Detail {
  import opened Wrappers
  import opened Books
  import opened Picker
  import opened LibraryStore

  /** The bookmark symbol on the read-me button. */
  datatype BookmarkSymbol = Bookmark | BookmarkFill

  /** The filled bookmark marks a book still to read. */
  function BookmarkFor(readMe: bool): (symbol: BookmarkSymbol)
    ensures symbol == BookmarkFill <==> readMe
  {
    if readMe then BookmarkFill else Bookmark
  }

  /** The edits the screen applies to its draft. */
  datatype DraftEdit =
    | ToggleReadMe
    | EndReviewEditing(text: string)
    | PickImage(info: PickerInfo)

  /** The draft after one edit. Title and author never change. */
  function ApplyEdit(book: Book, edit: DraftEdit): (r: Book)
    ensures SameIdentity(r, book)
    ensures edit.ToggleReadMe? ==>
      r.readMe == !book.readMe && r.review == book.review && r.image == book.image
    ensures edit.EndReviewEditing? ==>
      r.review == Some(edit.text) && r.readMe == book.readMe && r.image == book.image
    ensures edit.PickImage? ==>
      && r.readMe == book.readMe && r.review == book.review
      && r.image == (if EditedImage(edit.info).Some? then EditedImage(edit.info) else book.image)
  {
    match edit
    case ToggleReadMe => book.(readMe := !book.readMe)
    case EndReviewEditing(text) => book.(review := Some(text))
    case PickImage(info) =>
      match EditedImage(info)
      case Some(image) => book.(image := Some(image))
      case None => book
  }

  /** The draft after a sequence of edits, oldest first. */
  function ApplyEdits(book: Book, edits: seq<DraftEdit>): (r: Book)
    decreases |edits|
  {
    if edits == [] then book else ApplyEdits(ApplyEdit(book, edits[0]), edits[1..])
  }

  /** No sequence of edits changes the book's title or author. */
  lemma {:induction false} EditsKeepIdentity(book: Book, edits: seq<DraftEdit>)
    ensures SameIdentity(ApplyEdits(book, edits), book)
    decreases |edits|
  {
    if edits != [] {
      EditsKeepIdentity(ApplyEdit(book, edits[0]), edits[1..]);
    }
  }

  /** Toggling the flag twice restores the draft. */
  lemma ToggleTwiceRestores(book: Book)
    ensures ApplyEdits(book, [ToggleReadMe, ToggleReadMe]) == book
  {
    assert [ToggleReadMe, ToggleReadMe][1..] == [ToggleReadMe];
  }

  class DetailViewController {
    const library: Library
    /** The book as the screen received it. */
    ghost const original: Book
    /** The draft being edited. */
    var book: Book
    /** The symbol currently shown on the read-me button. */
    var bookmark: BookmarkSymbol
    /** Whether the screen has popped itself off the navigation stack. */
    var popped: bool

    /** The draft is always the same entry as the book the screen was opened on. */
    ghost predicate Valid()
      reads this
    {
      SameIdentity(book, original)
    }

    constructor (library: Library, book: Book)
      ensures Valid() && this.library == library
      ensures this.book == book && original == book && !popped
    {
      this.library := library;
      this.original := book;
      this.book := book;
      bookmark := Bookmark;
      popped := false;
    }

    /** Shows the bookmark that matches the draft's flag. */
    method ViewDidLoad()
      requires Valid()
      modifies this
      ensures Valid() && book == old(book) && popped == old(popped)
      ensures bookmark == BookmarkFor(book.readMe)
    {
      bookmark := BookmarkFor(book.readMe);
    }

    method ToggleReadMe()
      requires Valid()
      modifies this
      ensures Valid() && popped == old(popped)
      ensures book == ApplyEdit(old(book), DraftEdit.ToggleReadMe)
      ensures bookmark == BookmarkFor(book.readMe)
    {
      book := book.(readMe := !book.readMe);
      bookmark := BookmarkFor(book.readMe);
    }

    /** The review becomes the text view's contents, even when that text is empty. */
    method TextViewDidEndEditing(text: string)
      requires Valid()
      modifies this
      ensures Valid() && popped == old(popped) && bookmark == old(bookmark)
      ensures book == ApplyEdit(old(book), EndReviewEditing(text))
    {
      book := book.(review := Some(text));
    }

    /** A picked edited image replaces the draft's image; any other result changes nothing. */
    method ImagePickerDidFinish(info: PickerInfo)
      requires Valid()
      modifies this
      ensures Valid() && popped == old(popped) && bookmark == old(bookmark)
      ensures book == ApplyEdit(old(book), PickImage(info))
    {
      var selectedImage := EditedImage(info);
      if selectedImage.None? {
        return;
      }
      book := book.(image := selectedImage);
    }

    /** Commits the draft: exactly one store update, with the draft as it stands. */
    method SaveBook()
      requires Valid()
      modifies this, library
      ensures Valid() && book == old(book) && bookmark == old(bookmark) && popped
      ensures library.calls == old(library.calls) + [UpdateCall(book)]
    {
      library.Update(book);
      popped := true;
    }
  }
}
