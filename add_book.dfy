/** The add-book screen (readme/AddBookTableViewController.swift). */
module AddBook {
  import opened Wrappers
  import opened Books
  import opened Picker
  import opened LibraryStore

  /**
   * The book the save button creates from the two text fields and the picked image, or
   * absent when either field's text is missing or empty. Only emptiness is checked.
   */
  function NewBookFromForm(titleText: Option<string>, authorText: Option<string>,
                           image: Option<Image>): (r: Option<Book>)
    ensures r.Some? <==>
      titleText.Some? && authorText.Some? && titleText.value != "" && authorText.value != ""
    ensures r.Some? ==>
      && r.value.title == titleText.value && r.value.author == authorText.value
      && r.value.readMe && r.value.review == None && r.value.image == image
  {
    match (titleText, authorText)
    case (Some(title), Some(author)) =>
      if title != "" && author != "" then Some(Book(title, author, readMe := true, image := image))
      else None
    case _ => None
  }

  /** A book made by the form is never the list's placeholder row. */
  lemma NewBookIsNotPlaceholder(titleText: Option<string>, authorText: Option<string>,
                                image: Option<Image>)
    requires NewBookFromForm(titleText, authorText, image).Some?
    ensures NewBookFromForm(titleText, authorText, image).value != MockBook
  {
  }

  /** Every character of `s` is a space, a tab or a line break. */
  predicate IsBlank(s: string) {
    forall i :: 0 <= i < |s| ==> s[i] in " \t\n\r"
  }

  /** Whitespace is content: any non-empty blank-looking title and author are accepted as typed. */
  lemma WhitespaceAccepted(title: string, author: string, image: Option<Image>)
    requires title != "" && author != "" && IsBlank(title) && IsBlank(author)
    ensures NewBookFromForm(Some(title), Some(author), image) == Some(Book(title, author, readMe := true, image := image))
  {
  }

  class AddBookTableViewController {
    const library: Library
    /** The image picked for the new book, if any. */
    var newBookImage: Option<Image>
    /** Whether the screen has popped itself off the navigation stack. */
    var popped: bool

    constructor (library: Library)
      ensures this.library == library
      ensures newBookImage == None && !popped
    {
      this.library := library;
      newBookImage := None;
      popped := false;
    }

    method Cancel()
      modifies this
      ensures popped && newBookImage == old(newBookImage)
    {
      popped := true;
    }

    /**
     * Adds the form's book to the store (exactly one call) and leaves the screen, or does
     * nothing at all when the form is incomplete.
     */
    method SaveNewBook(titleText: Option<string>, authorText: Option<string>)
      modifies this, library
      ensures newBookImage == old(newBookImage)
      ensures var newBook := NewBookFromForm(titleText, authorText, old(newBookImage));
        if newBook.Some? then
          library.calls == old(library.calls) + [AddNewCall(newBook.value)] && popped
        else
          library.calls == old(library.calls) && library.books == old(library.books) &&
          popped == old(popped)
    {
      var newBook := NewBookFromForm(titleText, authorText, newBookImage);
      if newBook.None? {
        return;
      }
      library.AddNew(newBook.value);
      popped := true;
    }

    /** A picked edited image becomes the new book's image; any other result changes nothing. */
    method ImagePickerDidFinish(info: PickerInfo)
      modifies this
      ensures popped == old(popped)
      ensures newBookImage == if EditedImage(info).Some? then EditedImage(info) else old(newBookImage)
    {
      var selectedImage := EditedImage(info);
      if selectedImage.None? {
        return;
      }
      newBookImage := selectedImage;
    }
  }
}
