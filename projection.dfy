/**
 * The section projection the library screen recomputes on every change: the add-new
 * placeholder first, then the books still to read, then the finished books, each
 * bucket sorted by the chosen style.
 */
module Projection {
  import opened Wrappers
  import opened Books
  import opened BookOrder
  import opened Snapshots

  /** The sort buttons: by title, by author, or the stored (manual) order. */
  datatype SortStyle = Title | Author | ReadMe

  /** The books whose `readMe` flag is `readMe`, in stored order. */
  function Bucket(books: seq<Book>, readMe: bool): (r: seq<Book>)
    ensures |r| <= |books|
    ensures forall k :: 0 <= k < |r| ==> r[k].readMe == readMe
  {
    if books == [] then []
    else (if books[0].readMe == readMe then [books[0]] else []) + Bucket(books[1..], readMe)
  }

  lemma {:induction false} BucketMembership(books: seq<Book>, readMe: bool, b: Book)
    ensures b in Bucket(books, readMe) <==> b in books && b.readMe == readMe
  {
    if books != [] {
      BucketMembership(books[1..], readMe, b);
      assert books == [books[0]] + books[1..];
    }
  }

  /** The two buckets together hold every stored book exactly as often as the store does. */
  lemma {:induction false} BucketsPartition(books: seq<Book>)
    ensures multiset(Bucket(books, true)) + multiset(Bucket(books, false)) == multiset(books)
  {
    if books != [] {
      var head, tail := books[0], books[1..];
      BucketsPartition(tail);
      assert books == [head] + tail;
      assert multiset(books) == multiset{head} + multiset(tail);
      if head.readMe {
        assert Bucket(books, true) == [head] + Bucket(tail, true);
        assert Bucket(books, false) == Bucket(tail, false);
      } else {
        assert Bucket(books, true) == Bucket(tail, true);
        assert Bucket(books, false) == [head] + Bucket(tail, false);
      }
    }
  }

  /** `idx` picks the books of `sub` out of `s` at strictly increasing positions. */
  ghost predicate Embeds(idx: seq<nat>, sub: seq<Book>, s: seq<Book>) {
    && |idx| == |sub|
    && (forall k :: 0 <= k < |idx| ==> idx[k] < |s| && sub[k] == s[idx[k]])
    && (forall k, l :: 0 <= k < l < |idx| ==> idx[k] < idx[l])
  }

  /** `sub` keeps the relative order its books have in `s`. */
  ghost predicate IsSubsequence(sub: seq<Book>, s: seq<Book>) {
    exists idx :: Embeds(idx, sub, s)
  }

  /** Every position moved one place on. */
  function Shifted(idx: seq<nat>): (r: seq<nat>)
    ensures |r| == |idx|
    ensures forall k :: 0 <= k < |idx| ==> r[k] == idx[k] + 1
  {
    seq(|idx|, k requires 0 <= k < |idx| => idx[k] + 1)
  }

  lemma EmbedsSkip(idx: seq<nat>, sub: seq<Book>, x: Book, s: seq<Book>)
    requires Embeds(idx, sub, s)
    ensures Embeds(Shifted(idx), sub, [x] + s)
  {
    var r := Shifted(idx);
    forall k | 0 <= k < |r| ensures r[k] < |[x] + s| && sub[k] == ([x] + s)[r[k]] {
      assert ([x] + s)[idx[k] + 1] == s[idx[k]];
    }
  }

  lemma EmbedsKeep(idx: seq<nat>, sub: seq<Book>, x: Book, s: seq<Book>)
    requires Embeds(idx, sub, s)
    ensures Embeds([0] + Shifted(idx), [x] + sub, [x] + s)
  {
    EmbedsSkip(idx, sub, x, s);
    var r := [0] + Shifted(idx);
    forall k | 0 < k < |r| ensures r[k] < |[x] + s| && ([x] + sub)[k] == ([x] + s)[r[k]] {
      assert r[k] == Shifted(idx)[k - 1];
    }
  }

  lemma {:induction false} BucketKeepsOrder(books: seq<Book>, readMe: bool)
    ensures IsSubsequence(Bucket(books, readMe), books)
  {
    if books == [] {
      assert Embeds([], [], books);
    } else {
      BucketKeepsOrder(books[1..], readMe);
      var tail := Bucket(books[1..], readMe);
      var idx :| Embeds(idx, tail, books[1..]);
      assert books == [books[0]] + books[1..];
      if books[0].readMe == readMe {
        EmbedsKeep(idx, tail, books[0], books[1..]);
        assert Bucket(books, readMe) == [books[0]] + tail;
        assert Embeds([0] + Shifted(idx), Bucket(books, readMe), books);
      } else {
        EmbedsSkip(idx, tail, books[0], books[1..]);
        assert Bucket(books, readMe) == tail;
        assert Embeds(Shifted(idx), Bucket(books, readMe), books);
      }
    }
  }

  /**
   * `Dictionary(grouping:by:)` on the `readMe` flag: one entry per flag that occurs,
   * holding that flag's books in stored order.
   */
  function GroupByReadMe(books: seq<Book>): (groups: map<bool, seq<Book>>)
    ensures forall f :: f in groups <==> Bucket(books, f) != []
    ensures forall f :: f in groups ==> groups[f] == Bucket(books, f)
  {
    map f | f in {false, true} && Bucket(books, f) != [] :: Bucket(books, f)
  }

  /** A flag has a group exactly when some stored book carries it. */
  lemma GroupKeys(books: seq<Book>, readMe: bool)
    ensures readMe in GroupByReadMe(books) <==> exists b :: b in books && b.readMe == readMe
  {
    if readMe in GroupByReadMe(books) {
      BucketMembership(books, readMe, Bucket(books, readMe)[0]);
    } else {
      forall b | b in books ensures b.readMe != readMe {
        BucketMembership(books, readMe, b);
      }
    }
  }

  /** One bucket as the chosen style lays it out. */
  function Arrange(books: seq<Book>, style: SortStyle, compare: Comparator): (r: seq<Book>)
    ensures multiset(r) == multiset(books)
  {
    match style
    case Title => Sort(compare, TitleKey, books)
    case Author => Sort(compare, AuthorKey, books)
    case ReadMe => books
  }

  /** The snapshot the library screen shows for `books` under `style`. */
  function Project(books: seq<Book>, style: SortStyle, compare: Comparator): (snap: Snapshot)
    ensures |snap.sections| == 3
    ensures snap.sections[0] == SnapshotSection(AddNew, [MockBook])
    ensures snap.sections[1].id == Section.ReadMe
    ensures multiset(snap.sections[1].items) == multiset(Bucket(books, true))
    ensures snap.sections[2].id == Finished
    ensures multiset(snap.sections[2].items) == multiset(Bucket(books, false))
  {
    Layout([MockBook], Arrange(Bucket(books, true), style, compare), Arrange(Bucket(books, false), style, compare))
  }

  /** The three sections, in fixed order, with the placeholder alone in the first. */
  lemma ProjectionShape(books: seq<Book>, style: SortStyle, compare: Comparator)
    ensures SectionIds(Project(books, style, compare)) == AllSections
    ensures IndexOfSection(Project(books, style, compare), AddNew) == Some(0)
    ensures IndexOfSection(Project(books, style, compare), Section.ReadMe) == Some(1)
    ensures IndexOfSection(Project(books, style, compare), Finished) == Some(2)
    ensures Project(books, style, compare).sections[0].items == [MockBook]
  {
    LayoutSections([MockBook], Arrange(Bucket(books, true), style, compare), Arrange(Bucket(books, false), style, compare));
  }

  /**
   * Every book to read lands in the "Read Me" section, every other book in "Finished",
   * and the two sections together are a permutation of the stored books.
   */
  lemma ProjectionPartition(books: seq<Book>, style: SortStyle, compare: Comparator)
    ensures var snap := Project(books, style, compare);
      && (forall b :: b in snap.sections[1].items <==> b in books && b.readMe)
      && (forall b :: b in snap.sections[2].items <==> b in books && !b.readMe)
      && multiset(snap.sections[1].items) + multiset(snap.sections[2].items) == multiset(books)
  {
    var snap := Project(books, style, compare);
    BucketsPartition(books);
    forall b ensures b in snap.sections[1].items <==> b in books && b.readMe {
      BucketMembership(books, true, b);
      assert b in snap.sections[1].items <==> b in multiset(snap.sections[1].items);
    }
    forall b ensures b in snap.sections[2].items <==> b in books && !b.readMe {
      BucketMembership(books, false, b);
      assert b in snap.sections[2].items <==> b in multiset(snap.sections[2].items);
    }
  }

  /** Sorting by title (author) leaves both book sections ascending by title (author). */
  lemma ProjectionSorted(books: seq<Book>, style: SortStyle, compare: Comparator)
    requires IsTotalPreorder(compare)
    ensures var snap := Project(books, style, compare);
      && (style == Title ==>
            Ascending(compare, TitleKey, snap.sections[1].items) &&
            Ascending(compare, TitleKey, snap.sections[2].items))
      && (style == Author ==>
            Ascending(compare, AuthorKey, snap.sections[1].items) &&
            Ascending(compare, AuthorKey, snap.sections[2].items))
  {
    if style == Title {
      SortAscending(compare, TitleKey, Bucket(books, true));
      SortAscending(compare, TitleKey, Bucket(books, false));
    } else if style == Author {
      SortAscending(compare, AuthorKey, Bucket(books, true));
      SortAscending(compare, AuthorKey, Bucket(books, false));
    }
  }

  /**
   * Under the title or author style, the books of a section that share a key with any
   * book `y` appear in the order the store holds them.
   */
  lemma ProjectionStable(books: seq<Book>, style: SortStyle, compare: Comparator, y: Book)
    requires IsTotalPreorder(compare)
    ensures var snap := Project(books, style, compare);
      && (style == Title ==>
            Ties(compare, TitleKey, y, snap.sections[1].items) == Ties(compare, TitleKey, y, Bucket(books, true)) &&
            Ties(compare, TitleKey, y, snap.sections[2].items) == Ties(compare, TitleKey, y, Bucket(books, false)))
      && (style == Author ==>
            Ties(compare, AuthorKey, y, snap.sections[1].items) == Ties(compare, AuthorKey, y, Bucket(books, true)) &&
            Ties(compare, AuthorKey, y, snap.sections[2].items) == Ties(compare, AuthorKey, y, Bucket(books, false)))
  {
    if style == Title {
      SortStable(compare, TitleKey, y, Bucket(books, true));
      SortStable(compare, TitleKey, y, Bucket(books, false));
    } else if style == Author {
      SortStable(compare, AuthorKey, y, Bucket(books, true));
      SortStable(compare, AuthorKey, y, Bucket(books, false));
    }
  }

  /**
   * Under the stored-order style each book section keeps the relative order of the store
   * and does not depend on the string comparison at all.
   */
  lemma ProjectionKeepsStoredOrder(books: seq<Book>, compare: Comparator, other: Comparator)
    ensures var snap := Project(books, SortStyle.ReadMe, compare);
      && IsSubsequence(snap.sections[1].items, books)
      && IsSubsequence(snap.sections[2].items, books)
      && snap == Project(books, SortStyle.ReadMe, other)
  {
    BucketKeepsOrder(books, true);
    BucketKeepsOrder(books, false);
  }
}
