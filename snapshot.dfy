/**
 * The sectioned list shown by the library screen, as the platform's diffable-data-source
 * snapshot: an ordered list of sections, each with an ordered list of books.
 */
module Snapshots {
  import opened Wrappers
  import opened Books

  /** The list's sections, in their declaration (`CaseIterable`) order. */
  datatype Section = AddNew | ReadMe | Finished

  const AllSections: seq<Section> := [AddNew, ReadMe, Finished]

  /** A row position: section number and row number within it. */
  datatype IndexPath = IndexPath(section: nat, row: nat)

  datatype SnapshotSection = SnapshotSection(id: Section, items: seq<Book>)

  datatype Snapshot = Snapshot(sections: seq<SnapshotSection>)

  /** A freshly created snapshot has no sections. */
  const EmptySnapshot: Snapshot := Snapshot([])

  /** The section identifiers of a snapshot, in order. */
  function SectionIds(snap: Snapshot): (ids: seq<Section>)
    ensures |ids| == |snap.sections|
    ensures forall k :: 0 <= k < |ids| ==> ids[k] == snap.sections[k].id
  {
    seq(|snap.sections|, k requires 0 <= k < |snap.sections| => snap.sections[k].id)
  }

  /** The position of the first section `id` at or after `start`. */
  function IndexOfSectionFrom(snap: Snapshot, id: Section, start: nat): (r: Option<nat>)
    requires start <= |snap.sections|
    ensures r.Some? ==>
      start <= r.value < |snap.sections| && snap.sections[r.value].id == id &&
      forall k :: start <= k < r.value ==> snap.sections[k].id != id
    ensures r.None? ==> forall k :: start <= k < |snap.sections| ==> snap.sections[k].id != id
    decreases |snap.sections| - start
  {
    if start == |snap.sections| then None
    else if snap.sections[start].id == id then Some(start)
    else IndexOfSectionFrom(snap, id, start + 1)
  }

  /** `indexOfSection`: where section `id` stands, or absent when the snapshot lacks it. */
  function IndexOfSection(snap: Snapshot, id: Section): (r: Option<nat>)
    ensures r.Some? ==>
      r.value < |snap.sections| && snap.sections[r.value].id == id &&
      forall k :: 0 <= k < r.value ==> snap.sections[k].id != id
    ensures r.None? <==> id !in SectionIds(snap)
  {
    IndexOfSectionFrom(snap, id, 0)
  }

  /** `appendSections`: new, empty sections after the existing ones. */
  function AppendSections(snap: Snapshot, ids: seq<Section>): (r: Snapshot)
    ensures SectionIds(r) == SectionIds(snap) + ids
    ensures r.sections[..|snap.sections|] == snap.sections
    ensures forall k :: |snap.sections| <= k < |r.sections| ==> r.sections[k].items == []
  {
    Snapshot(snap.sections + seq(|ids|, k requires 0 <= k < |ids| => SnapshotSection(ids[k], [])))
  }

  /**
   * `appendItems(_:toSection:)`: the books go at the end of section `id`, which must exist
   * (the platform traps otherwise). No other section changes.
   */
  function AppendItems(snap: Snapshot, books: seq<Book>, id: Section): (r: Snapshot)
    requires id in SectionIds(snap)
    ensures SectionIds(r) == SectionIds(snap)
    ensures forall k :: 0 <= k < |r.sections| && k != IndexOfSection(snap, id).value ==>
      r.sections[k] == snap.sections[k]
    ensures r.sections[IndexOfSection(snap, id).value].items ==
      snap.sections[IndexOfSection(snap, id).value].items + books
  {
    var k := IndexOfSection(snap, id).value;
    Snapshot(snap.sections[k := SnapshotSection(id, snap.sections[k].items + books)])
  }

  /** `itemIdentifier(for:)`: the book at a row, or absent when the row does not exist. */
  function ItemIdentifier(snap: Snapshot, path: IndexPath): (r: Option<Book>)
    ensures r.Some? <==>
      path.section < |snap.sections| && path.row < |snap.sections[path.section].items|
    ensures r.Some? ==> r.value == snap.sections[path.section].items[path.row]
  {
    if path.section < |snap.sections| && path.row < |snap.sections[path.section].items|
    then Some(snap.sections[path.section].items[path.row])
    else None
  }

  /** A snapshot holding the three sections in their declaration order. */
  function Layout(addNew: seq<Book>, readMe: seq<Book>, finished: seq<Book>): Snapshot {
    Snapshot([
      SnapshotSection(AddNew, addNew),
      SnapshotSection(ReadMe, readMe),
      SnapshotSection(Finished, finished)])
  }

  lemma LayoutSections(addNew: seq<Book>, readMe: seq<Book>, finished: seq<Book>)
    ensures SectionIds(Layout(addNew, readMe, finished)) == AllSections
    ensures IndexOfSection(Layout(addNew, readMe, finished), AddNew) == Some(0)
    ensures IndexOfSection(Layout(addNew, readMe, finished), ReadMe) == Some(1)
    ensures IndexOfSection(Layout(addNew, readMe, finished), Finished) == Some(2)
  {
    var snap := Layout(addNew, readMe, finished);
    assert SectionIds(snap) == AllSections;
  }

  /** Appending to one section of the three-section layout grows that section only. */
  lemma AppendToLayout(addNew: seq<Book>, readMe: seq<Book>, finished: seq<Book>,
                       books: seq<Book>, id: Section)
    ensures id in SectionIds(Layout(addNew, readMe, finished))
    ensures AppendItems(Layout(addNew, readMe, finished), books, id) ==
      match id
      case AddNew => Layout(addNew + books, readMe, finished)
      case ReadMe => Layout(addNew, readMe + books, finished)
      case Finished => Layout(addNew, readMe, finished + books)
  {
    LayoutSections(addNew, readMe, finished);
  }

  /** The placeholder appended to an empty first section is all that section holds. */
  lemma AppendPlaceholder(readMe: seq<Book>, finished: seq<Book>)
    ensures AddNew in SectionIds(Layout([], readMe, finished))
    ensures AppendItems(Layout([], readMe, finished), [MockBook], AddNew) == Layout([MockBook], readMe, finished)
  {
    AppendToLayout([], readMe, finished, [MockBook], AddNew);
    assert [] + [MockBook] == [MockBook];
  }
}
