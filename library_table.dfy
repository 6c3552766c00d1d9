/**
 * The library screen (readme/LibraryTableViewController.swift): the data source that
 * turns the store into the sectioned list and handles edit, delete and move requests,
 * and the screen controller that drives it.
 */
module LibraryTable {
  import opened Wrappers
  import opened Books
  import opened BookOrder
  import opened Snapshots
  import opened Projection
  import opened LibraryStore

  /** The editing action the list commits for a row. */
  datatype EditingStyle = NoStyle | DeleteRow | InsertRow

  /**
   * The books a move from `source` to `destination` would reorder, or absent when the
   * move is rejected: same position, different sections, or a row that does not exist.
   */
  function MoveRequest(snap: Snapshot, source: IndexPath, destination: IndexPath): (r: Option<(Book, Book)>)
    ensures r.Some? <==>
      source != destination && source.section == destination.section &&
      ItemIdentifier(snap, source).Some? && ItemIdentifier(snap, destination).Some?
    ensures r.Some? ==>
      r.value == (ItemIdentifier(snap, source).value, ItemIdentifier(snap, destination).value)
  {
    if source != destination && source.section == destination.section then
      match (ItemIdentifier(snap, source), ItemIdentifier(snap, destination))
      case (Some(bookToMove), Some(bookAtDestination)) => Some((bookToMove, bookAtDestination))
      case _ => None
    else None
  }

  /** The placeholder row can never be moved, nor can anything be moved onto it. */
  lemma PlaceholderNeverMoves(books: seq<Book>, style: SortStyle, compare: Comparator,
                              source: IndexPath, destination: IndexPath)
    requires source.section == 0 || destination.section == 0
    ensures MoveRequest(Project(books, style, compare), source, destination) == None
  {
  }

  /** An accepted move on a projected list reorders two stored books of the same bucket. */
  lemma AcceptedMoveStaysInBucket(books: seq<Book>, style: SortStyle, compare: Comparator,
                                  source: IndexPath, destination: IndexPath)
    requires MoveRequest(Project(books, style, compare), source, destination).Some?
    ensures var (bookToMove, bookAtDestination) :=
        MoveRequest(Project(books, style, compare), source, destination).value;
      && bookToMove in books && bookAtDestination in books
      && bookToMove.readMe == bookAtDestination.readMe
      && (bookToMove.readMe <==> source.section == 1)
  {
    ProjectionPartition(books, style, compare);
  }

  /** What the layout loop has appended for flag `readMe` while the groups in `pending` remain. */
  ghost function Appended(groups: map<bool, seq<Book>>, pending: set<bool>, readMe: bool,
                          style: SortStyle, compare: Comparator): seq<Book>
  {
    if readMe in groups && readMe !in pending then Arrange(groups[readMe], style, compare) else []
  }

  /** The list section a group of books is appended to. */
  function SectionFor(readMe: bool): (id: Section)
    ensures id != AddNew
    ensures id == Section.ReadMe <==> readMe
  {
    if readMe then Section.ReadMe else Finished
  }

  /** The list the layout loop has built while the groups in `pending` remain. */
  ghost function PartialLayout(groups: map<bool, seq<Book>>, pending: set<bool>,
                               style: SortStyle, compare: Comparator): Snapshot
  {
    Layout([], Appended(groups, pending, true, style, compare),
               Appended(groups, pending, false, style, compare))
  }

  /** Before any group is appended the list is the three empty sections. */
  lemma NothingAppended(groups: map<bool, seq<Book>>, style: SortStyle, compare: Comparator)
    ensures PartialLayout(groups, groups.Keys, style, compare) == AppendSections(EmptySnapshot, AllSections)
  {
    assert AppendSections(EmptySnapshot, AllSections) == Layout([], [], []);
  }

  /** Appending one more group moves that group from pending to appended. */
  lemma AppendGroup(groups: map<bool, seq<Book>>, pending: set<bool>, readMe: bool,
                    style: SortStyle, compare: Comparator)
    requires readMe in pending && pending <= groups.Keys
    ensures var before := PartialLayout(groups, pending, style, compare);
      && SectionFor(readMe) in SectionIds(before)
      && AppendItems(before, Arrange(groups[readMe], style, compare), SectionFor(readMe)) ==
         PartialLayout(groups, pending - {readMe}, style, compare)
  {
    var toRead := Appended(groups, pending, true, style, compare);
    var finished := Appended(groups, pending, false, style, compare);
    var sortedBooks := Arrange(groups[readMe], style, compare);
    AppendToLayout([], toRead, finished, sortedBooks, SectionFor(readMe));
    if readMe {
      assert toRead + sortedBooks == sortedBooks;
    } else {
      assert finished + sortedBooks == sortedBooks;
    }
  }

  /** Once every group is appended, followed by the placeholder, the list is the projection. */
  lemma AppendedEverything(books: seq<Book>, style: SortStyle, compare: Comparator)
    ensures var before := PartialLayout(GroupByReadMe(books), {}, style, compare);
      && AddNew in SectionIds(before)
      && AppendItems(before, [MockBook], AddNew) == Project(books, style, compare)
  {
    var groups := GroupByReadMe(books);
    forall readMe | true
      ensures Appended(groups, {}, readMe, style, compare) == Arrange(Bucket(books, readMe), style, compare)
    {
      if readMe !in groups {
        var empty := Arrange(Bucket(books, readMe), style, compare);
        assert |multiset(empty)| == 0;
      }
    }
    AppendPlaceholder(Appended(groups, {}, true, style, compare), Appended(groups, {}, false, style, compare));
  }

  class LibraryDataSource {
    /** The store the list is drawn from. */
    const library: Library
    /** The platform's locale-aware, case-insensitive string comparison. */
    const compare: Comparator
    /** The style the list was last laid out with. */
    var currentSortStyle: SortStyle
    /** The list currently applied to the table. */
    var snapshot: Snapshot

    constructor (library: Library, compare: Comparator)
      ensures this.library == library && this.compare == compare
      ensures currentSortStyle == Title
      ensures snapshot == EmptySnapshot
    {
      this.library := library;
      this.compare := compare;
      currentSortStyle := Title;
      snapshot := EmptySnapshot;
    }

    /**
     * Records the style and applies a freshly built list: the three sections, each
     * bucket of the store (in whatever order the grouping yields them) laid out by the
     * style into its own section, then the placeholder.
     */
    method Update(sortStyle: SortStyle)
      modifies this
      ensures currentSortStyle == sortStyle
      ensures snapshot == Project(library.books, sortStyle, compare)
    {
      currentSortStyle := sortStyle;
      var newSnapshot := AppendSections(EmptySnapshot, AllSections);
      var groups := GroupByReadMe(library.books);
      var pending := groups.Keys;
      NothingAppended(groups, sortStyle, compare);
      while pending != {}
        invariant currentSortStyle == sortStyle
        invariant pending <= groups.Keys
        invariant newSnapshot == PartialLayout(groups, pending, sortStyle, compare)
        decreases pending
      {
        var readMe :| readMe in pending;
        var sortedBooks := Arrange(groups[readMe], sortStyle, compare);
        AppendGroup(groups, pending, readMe, sortStyle, compare);
        newSnapshot := AppendItems(newSnapshot, sortedBooks, SectionFor(readMe));
        pending := pending - {readMe};
      }
      AppendedEverything(library.books, sortStyle, compare);
      newSnapshot := AppendItems(newSnapshot, [MockBook], AddNew);
      snapshot := newSnapshot;
    }

    /** Every row outside the placeholder section may be edited (deleted). */
    method CanEditRowAt(path: IndexPath) returns (editable: bool)
      ensures editable <==> IndexOfSection(snapshot, AddNew) != Some(path.section)
      ensures SectionIds(snapshot) == AllSections ==> (editable <==> path.section != 0)
    {
      editable := if IndexOfSection(snapshot, AddNew) == Some(path.section) then false else true;
    }

    /** Under the stored-order style only rows of the "Read Me" section may be moved. */
    method CanMoveRowAt(path: IndexPath) returns (movable: bool)
      ensures !movable <==>
        IndexOfSection(snapshot, Section.ReadMe) != Some(path.section) && currentSortStyle == SortStyle.ReadMe
      ensures SectionIds(snapshot) == AllSections ==>
        (movable <==> currentSortStyle != SortStyle.ReadMe || path.section == 1)
    {
      if IndexOfSection(snapshot, Section.ReadMe) != Some(path.section) && currentSortStyle == SortStyle.ReadMe {
        movable := false;
      } else {
        movable := true;
      }
    }

    /** A committed delete removes that row's book from the store and lays the list out again. */
    method CommitEditing(editingStyle: EditingStyle, path: IndexPath)
      modifies this, library
      ensures currentSortStyle == old(currentSortStyle)
      ensures var book := ItemIdentifier(old(snapshot), path);
        if editingStyle == DeleteRow && book.Some? then
          && library.calls == old(library.calls) + [DeleteCall(book.value)]
          && snapshot == Project(library.books, currentSortStyle, compare)
        else
          && library.calls == old(library.calls) && library.books == old(library.books)
          && snapshot == old(snapshot)
    {
      if editingStyle == DeleteRow {
        var book := ItemIdentifier(snapshot, path);
        if book.None? {
          return;
        }
        library.Delete(book.value);
        Update(currentSortStyle);
      }
    }

    /**
     * A rejected move re-applies the unchanged list and leaves the store alone; an accepted
     * one asks the store to reorder once and lays the list out again in the same style.
     */
    method MoveRow(source: IndexPath, destination: IndexPath)
      modifies this, library
      ensures currentSortStyle == old(currentSortStyle)
      ensures var request := MoveRequest(old(snapshot), source, destination);
        if request.None? then
          && library.calls == old(library.calls) && library.books == old(library.books)
          && snapshot == old(snapshot)
        else
          && library.calls == old(library.calls) + [ReorderBooksCall(request.value.0, request.value.1)]
          && snapshot == Project(library.books, currentSortStyle, compare)
    {
      var request := MoveRequest(snapshot, source, destination);
      if request.None? {
        // A rejected move re-applies the current list unchanged, undoing the drag on screen.
        snapshot := snapshot;
        return;
      }
      library.ReorderBooks(request.value.0, request.value.1);
      Update(currentSortStyle);
    }
  }

  class LibraryTableViewController {
    const library: Library
    const compare: Comparator
    /** Created when the view loads. */
    var dataSource: LibraryDataSource?

    ghost predicate Valid()
      reads this, dataSource
    {
      dataSource != null ==> dataSource.library == library && dataSource.compare == compare
    }

    constructor (library: Library, compare: Comparator)
      ensures this.library == library && this.compare == compare
      ensures dataSource == null && Valid()
    {
      this.library := library;
      this.compare := compare;
      dataSource := null;
    }

    /** Creates the data source (initially sorted by title) and lays it out in stored order. */
    method ViewDidLoad()
      modifies this
      ensures Valid() && dataSource != null && fresh(dataSource)
      ensures dataSource.currentSortStyle == SortStyle.ReadMe
      ensures dataSource.snapshot == Project(library.books, SortStyle.ReadMe, compare)
    {
      dataSource := new LibraryDataSource(library, compare);
      dataSource.Update(SortStyle.ReadMe);
    }

    /** Each appearance lays the list out again with whatever style is current. */
    method ViewWillAppear()
      requires Valid() && dataSource != null
      modifies dataSource
      ensures Valid()
      ensures dataSource.currentSortStyle == old(dataSource.currentSortStyle)
      ensures dataSource.snapshot == Project(library.books, dataSource.currentSortStyle, compare)
    {
      dataSource.Update(dataSource.currentSortStyle);
    }

    /** The sort-by-title, sort-by-author and sort-by-stored-order buttons. */
    method SortButtonTapped(sortStyle: SortStyle)
      requires Valid() && dataSource != null
      modifies dataSource
      ensures Valid()
      ensures dataSource.currentSortStyle == sortStyle
      ensures dataSource.snapshot == Project(library.books, sortStyle, compare)
    {
      dataSource.Update(sortStyle);
    }
  }
}
