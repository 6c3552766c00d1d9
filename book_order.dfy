/**
 * Ordering books by title or by author. The platform's locale-aware, case-insensitive
 * string comparison is a parameter `compare`; the only thing assumed of it, where a
 * property needs it, is that it is a total preorder.
 */
module BookOrder {
  import opened Books

  /** The outcome of comparing two strings. */
  datatype ComparisonResult = OrderedAscending | OrderedSame | OrderedDescending {
    /** The outcome of the comparison with its operands swapped. */
    function Swapped(): ComparisonResult {
      match this
      case OrderedAscending => OrderedDescending
      case OrderedSame => OrderedSame
      case OrderedDescending => OrderedAscending
    }
  }

  type Comparator = (string, string) -> ComparisonResult

  /** `compare` answers consistently in both directions and "not descending" is transitive. */
  ghost predicate IsTotalPreorder(compare: Comparator) {
    && (forall a, b :: compare(b, a) == compare(a, b).Swapped())
    && (forall a, b, c ::
          compare(a, b) != OrderedDescending && compare(b, c) != OrderedDescending ==>
          compare(a, c) != OrderedDescending)
  }

  /** The field a sorted list is ordered on. */
  datatype BookKey = TitleKey | AuthorKey

  function KeyOf(key: BookKey, b: Book): string {
    match key
    case TitleKey => b.title
    case AuthorKey => b.author
  }

  /** The sort predicate handed to `sorted(by:)`: `a` strictly before `b`. */
  predicate IncreasingOrder(compare: Comparator, key: BookKey, a: Book, b: Book) {
    compare(KeyOf(key, a), KeyOf(key, b)) == OrderedAscending
  }

  /**
   * Under a total preorder the sort predicate is a strict order: never true both ways,
   * it implies "in order", and when it fails the other book may stand first.
   */
  lemma IncreasingOrderIsStrict(compare: Comparator, key: BookKey, a: Book, b: Book)
    requires IsTotalPreorder(compare)
    ensures !(IncreasingOrder(compare, key, a, b) && IncreasingOrder(compare, key, b, a))
    ensures IncreasingOrder(compare, key, a, b) ==> InOrder(compare, key, a, b)
    ensures !IncreasingOrder(compare, key, a, b) ==> InOrder(compare, key, b, a)
  {
    assert compare(KeyOf(key, b), KeyOf(key, a)) == compare(KeyOf(key, a), KeyOf(key, b)).Swapped();
  }

  /** `a` may stand before `b` in an ascending list. */
  predicate InOrder(compare: Comparator, key: BookKey, a: Book, b: Book) {
    compare(KeyOf(key, a), KeyOf(key, b)) != OrderedDescending
  }

  /** Every book is at or before every later book under the comparator. */
  ghost predicate Ascending(compare: Comparator, key: BookKey, s: seq<Book>) {
    forall i, j :: 0 <= i < j < |s| ==> InOrder(compare, key, s[i], s[j])
  }

  /**
   * Places `x` in front of the first book that is not strictly before it, so `x` goes
   * ahead of the books it ties with.
   */
  function Insert(compare: Comparator, key: BookKey, x: Book, s: seq<Book>): (r: seq<Book>)
    ensures multiset(r) == multiset(s) + multiset{x}
  {
    if s == [] then [x]
    else if !IncreasingOrder(compare, key, s[0], x) then [x] + s
    else
      var rest := Insert(compare, key, x, s[1..]);
      assert s == [s[0]] + s[1..];
      [s[0]] + rest
  }

  /** `books.sorted(by:)` with the strict predicate `IncreasingOrder`. */
  function Sort(compare: Comparator, key: BookKey, s: seq<Book>): (r: seq<Book>)
    ensures multiset(r) == multiset(s)
  {
    if s == [] then []
    else
      assert s == [s[0]] + s[1..];
      Insert(compare, key, s[0], Sort(compare, key, s[1..]))
  }

  lemma InOrderTransitive(compare: Comparator, key: BookKey, a: Book, b: Book, c: Book)
    requires IsTotalPreorder(compare)
    requires InOrder(compare, key, a, b) && InOrder(compare, key, b, c)
    ensures InOrder(compare, key, a, c)
  {
  }

  /** A book at or before every book of an ascending list can head it. */
  lemma AscendingCons(compare: Comparator, key: BookKey, y: Book, s: seq<Book>)
    requires Ascending(compare, key, s)
    requires forall j :: 0 <= j < |s| ==> InOrder(compare, key, y, s[j])
    ensures Ascending(compare, key, [y] + s)
  {
    var r := [y] + s;
    forall i, j | 0 <= i < j < |r| ensures InOrder(compare, key, r[i], r[j]) {
      assert r[j] == s[j - 1];
      if i > 0 {
        assert r[i] == s[i - 1];
      }
    }
  }

  lemma {:induction false} InsertAscending(compare: Comparator, key: BookKey, x: Book, s: seq<Book>)
    requires IsTotalPreorder(compare)
    requires Ascending(compare, key, s)
    ensures Ascending(compare, key, Insert(compare, key, x, s))
  {
    if s == [] {
    } else if !IncreasingOrder(compare, key, s[0], x) {
      IncreasingOrderIsStrict(compare, key, s[0], x);
      forall j | 0 <= j < |s| ensures InOrder(compare, key, x, s[j]) {
        if j > 0 {
          InOrderTransitive(compare, key, x, s[0], s[j]);
        }
      }
      AscendingCons(compare, key, x, s);
    } else {
      var rest := Insert(compare, key, x, s[1..]);
      InsertAscending(compare, key, x, s[1..]);
      IncreasingOrderIsStrict(compare, key, s[0], x);
      forall j | 0 <= j < |rest| ensures InOrder(compare, key, s[0], rest[j]) {
        assert rest[j] in multiset(rest);
        if rest[j] != x {
          assert rest[j] in multiset(s[1..]);
          var k :| 0 <= k < |s[1..]| && s[1..][k] == rest[j];
          assert s[k + 1] == rest[j];
        }
      }
      AscendingCons(compare, key, s[0], rest);
    }
  }

  /** The sorted list is ascending under the comparator. */
  lemma {:induction false} SortAscending(compare: Comparator, key: BookKey, s: seq<Book>)
    requires IsTotalPreorder(compare)
    ensures Ascending(compare, key, Sort(compare, key, s))
  {
    if s != [] {
      SortAscending(compare, key, s[1..]);
      InsertAscending(compare, key, s[0], Sort(compare, key, s[1..]));
    }
  }

  /** `a` and `b` compare the same on the key. */
  predicate Tied(compare: Comparator, key: BookKey, a: Book, b: Book) {
    compare(KeyOf(key, a), KeyOf(key, b)) == OrderedSame
  }

  /** The books of `s` that tie with `y`, in their order in `s`. */
  function Ties(compare: Comparator, key: BookKey, y: Book, s: seq<Book>): (r: seq<Book>)
    ensures |r| <= |s|
  {
    if s == [] then []
    else if Tied(compare, key, y, s[0]) then [s[0]] + Ties(compare, key, y, s[1..])
    else Ties(compare, key, y, s[1..])
  }

  /** `Ties` keeps exactly the books that tie with `y`. */
  lemma {:induction false} TiesMembers(compare: Comparator, key: BookKey, y: Book, s: seq<Book>)
    ensures forall b :: b in Ties(compare, key, y, s) <==> b in s && Tied(compare, key, y, b)
  {
    if s != [] {
      TiesMembers(compare, key, y, s[1..]);
      assert s == [s[0]] + s[1..];
    }
  }

  /** A book strictly before `x` never ties with a book `x` ties with. */
  lemma StrictlyBeforeNotTied(compare: Comparator, key: BookKey, y: Book, x: Book, b: Book)
    requires IsTotalPreorder(compare)
    requires Tied(compare, key, y, x) && IncreasingOrder(compare, key, b, x)
    ensures !Tied(compare, key, y, b)
  {
    var ky, kx, kb := KeyOf(key, y), KeyOf(key, x), KeyOf(key, b);
    assert compare(kx, ky) == compare(ky, kx).Swapped();
    assert compare(kx, kb) == compare(kb, kx).Swapped();
  }

  /** When `x` ties with `y`, no book of `s` strictly before `x` ties with `y`. */
  predicate NoTieBefore(compare: Comparator, key: BookKey, y: Book, x: Book, s: seq<Book>) {
    s == [] ||
    ((Tied(compare, key, y, x) && IncreasingOrder(compare, key, s[0], x) ==> !Tied(compare, key, y, s[0]))
     && NoTieBefore(compare, key, y, x, s[1..]))
  }

  /** Under a total preorder every list meets `NoTieBefore`. */
  lemma {:induction false} PreorderNoTieBefore(compare: Comparator, key: BookKey, y: Book, x: Book, s: seq<Book>)
    requires IsTotalPreorder(compare)
    ensures NoTieBefore(compare, key, y, x, s)
  {
    if s != [] {
      PreorderNoTieBefore(compare, key, y, x, s[1..]);
      if Tied(compare, key, y, x) && IncreasingOrder(compare, key, s[0], x) {
        StrictlyBeforeNotTied(compare, key, y, x, s[0]);
      }
    }
  }

  /** The ties of a list with a given head. */
  lemma TiesCons(compare: Comparator, key: BookKey, y: Book, b: Book, t: seq<Book>)
    ensures Ties(compare, key, y, [b] + t) ==
      (if Tied(compare, key, y, b) then [b] else []) + Ties(compare, key, y, t)
  {
    assert ([b] + t)[0] == b && ([b] + t)[1..] == t;
  }

  /** Inserting `x` puts it ahead of every book already in the list that it ties with. */
  lemma {:induction false} InsertTies(compare: Comparator, key: BookKey, y: Book, x: Book, s: seq<Book>)
    requires NoTieBefore(compare, key, y, x, s)
    ensures Ties(compare, key, y, Insert(compare, key, x, s)) ==
      (if Tied(compare, key, y, x) then [x] else []) + Ties(compare, key, y, s)
  {
    if s == [] {
      TiesCons(compare, key, y, x, s);
      assert [x] + s == [x];
    } else if !IncreasingOrder(compare, key, s[0], x) {
      TiesCons(compare, key, y, x, s);
    } else {
      InsertTies(compare, key, y, x, s[1..]);
      TiesCons(compare, key, y, s[0], Insert(compare, key, x, s[1..]));
      TiesCons(compare, key, y, s[0], s[1..]);
      assert [s[0]] + s[1..] == s;
    }
  }

  /** Each book of `s` meets `NoTieBefore` against the sorted rest of `s`. */
  predicate SortSeparatesTies(compare: Comparator, key: BookKey, y: Book, s: seq<Book>) {
    s == [] ||
    (NoTieBefore(compare, key, y, s[0], Sort(compare, key, s[1..]))
     && SortSeparatesTies(compare, key, y, s[1..]))
  }

  /** Under a total preorder every list meets `SortSeparatesTies`. */
  lemma {:induction false} PreorderSortSeparatesTies(compare: Comparator, key: BookKey, y: Book, s: seq<Book>)
    requires IsTotalPreorder(compare)
    ensures SortSeparatesTies(compare, key, y, s)
  {
    if s != [] {
      PreorderSortSeparatesTies(compare, key, y, s[1..]);
      PreorderNoTieBefore(compare, key, y, s[0], Sort(compare, key, s[1..]));
    }
  }

  /** Sorting keeps the order of the ties of `y` wherever no tie is jumped over. */
  lemma {:induction false} SortTies(compare: Comparator, key: BookKey, y: Book, s: seq<Book>)
    requires SortSeparatesTies(compare, key, y, s)
    ensures Ties(compare, key, y, Sort(compare, key, s)) == Ties(compare, key, y, s)
  {
    if s != [] {
      var sorted := Sort(compare, key, s[1..]);
      SortTies(compare, key, y, s[1..]);
      InsertTies(compare, key, y, s[0], sorted);
      TiesCons(compare, key, y, s[0], s[1..]);
      assert [s[0]] + s[1..] == s;
    }
  }

  /**
   * Sorting is stable: the books that tie with any book `y` come out in the order they
   * went in.
   */
  lemma SortStable(compare: Comparator, key: BookKey, y: Book, s: seq<Book>)
    requires IsTotalPreorder(compare)
    ensures Ties(compare, key, y, Sort(compare, key, s)) == Ties(compare, key, y, s)
  {
    PreorderSortSeparatesTies(compare, key, y, s);
    SortTies(compare, key, y, s);
  }
}
