/**
 The list of books (MyBooks/BookList.swift): which sort keys a sort order
 selects and the order they induce, how many stars a rating draws, and the
 swipe-to-delete action.
 */
module BookListing {
  import opened Wrappers
  import opened Books
  import Screen = BookListScreen

  // ---------------------------------------------------------------------
  // Sort descriptors

  /** The key paths a `SortDescriptor<Book>` is built from, each ascending. */
  datatype SortKey = StatusKey | TitleKey | AuthorKey

  /** `init(sortOrder:)`: the sort descriptors the query is configured with. */
  function SortDescriptors(order: Screen.SortOrder): (keys: seq<SortKey>)
    ensures |keys| >= 1
    ensures forall i, j :: 0 <= i < j < |keys| ==> keys[i] != keys[j]
  {
    match order
    case Status => [StatusKey, TitleKey]
    case Title => [TitleKey]
    case Author => [AuthorKey]
  }

  lemma SortDescriptorsValues()
    ensures SortDescriptors(Screen.SortOrder.Status) == [StatusKey, TitleKey]
    ensures SortDescriptors(Screen.SortOrder.Title) == [TitleKey]
    ensures SortDescriptors(Screen.SortOrder.Author) == [AuthorKey]
  {
  }

  datatype Ordering = Less | Equal | Greater {
    function Flip(): Ordering
    {
      match this
      case Less => Greater
      case Equal => Equal
      case Greater => Less
    }
  }

  function CompareInt(x: int, y: int): Ordering
  {
    if x < y then Less else if x == y then Equal else Greater
  }

  /** Ascending string order: lexicographic on character codes. */
  function CompareStrings(x: string, y: string): (r: Ordering)
    ensures r == Equal <==> x == y
  {
    if x == [] && y == [] then Equal
    else if x == [] then Less
    else if y == [] then Greater
    else if x[0] < y[0] then Less
    else if x[0] > y[0] then Greater
    else
      var r := CompareStrings(x[1..], y[1..]);
      assert r == Equal <==> x == y by {
        assert x == [x[0]] + x[1..] && y == [y[0]] + y[1..];
      }
      r
  }

  lemma {:induction false} CompareStringsFlip(x: string, y: string)
    ensures CompareStrings(y, x) == CompareStrings(x, y).Flip()
  {
    if x != [] && y != [] && x[0] == y[0] {
      CompareStringsFlip(x[1..], y[1..]);
    }
  }

  lemma {:induction false} CompareStringsTransitive(x: string, y: string, z: string)
    requires CompareStrings(x, y) != Greater && CompareStrings(y, z) != Greater
    ensures CompareStrings(x, z) != Greater
    ensures CompareStrings(x, z) == Equal ==> x == y == z
  {
    if x != [] && y != [] && z != [] && x[0] == y[0] == z[0] {
      CompareStringsTransitive(x[1..], y[1..], z[1..]);
    }
  }

  /** How two records compare on one key. */
  function CompareKey(k: SortKey, a: BookRecord, b: BookRecord): Ordering
  {
    match k
    case StatusKey => CompareInt(a.status, b.status)
    case TitleKey => CompareStrings(a.title, b.title)
    case AuthorKey => CompareStrings(a.author, b.author)
  }

  lemma CompareKeyFlip(k: SortKey, a: BookRecord, b: BookRecord)
    ensures CompareKey(k, b, a) == CompareKey(k, a, b).Flip()
  {
    match k
    case StatusKey =>
    case TitleKey => CompareStringsFlip(a.title, b.title);
    case AuthorKey => CompareStringsFlip(a.author, b.author);
  }

  lemma CompareKeyTransitive(k: SortKey, a: BookRecord, b: BookRecord, c: BookRecord)
    requires CompareKey(k, a, b) != Greater && CompareKey(k, b, c) != Greater
    ensures CompareKey(k, a, c) != Greater
    ensures CompareKey(k, a, c) == Equal ==> CompareKey(k, a, b) == Equal && CompareKey(k, b, c) == Equal
  {
    match k
    case StatusKey =>
    case TitleKey => CompareStringsTransitive(a.title, b.title, c.title);
    case AuthorKey => CompareStringsTransitive(a.author, b.author, c.author);
  }

  /**
   `a` comes strictly before `b` under the keys: on the first key where the
   two differ, `a` is the smaller.
   */
  predicate Precedes(keys: seq<SortKey>, a: BookRecord, b: BookRecord)
  {
    keys != [] &&
    match CompareKey(keys[0], a, b)
    case Less => true
    case Greater => false
    case Equal => Precedes(keys[1..], a, b)
  }

  lemma {:induction false} PrecedesIrreflexive(keys: seq<SortKey>, a: BookRecord)
    ensures !Precedes(keys, a, a)
  {
    if keys != [] {
      PrecedesIrreflexive(keys[1..], a);
    }
  }

  lemma {:induction false} PrecedesAsymmetric(keys: seq<SortKey>, a: BookRecord, b: BookRecord)
    ensures Precedes(keys, a, b) ==> !Precedes(keys, b, a)
  {
    if keys != [] {
      CompareKeyFlip(keys[0], a, b);
      PrecedesAsymmetric(keys[1..], a, b);
    }
  }

  lemma {:induction false} PrecedesTransitive(keys: seq<SortKey>, a: BookRecord, b: BookRecord, c: BookRecord)
    requires Precedes(keys, a, b) && Precedes(keys, b, c)
    ensures Precedes(keys, a, c)
  {
    var k := keys[0];
    CompareKeyTransitive(k, a, b, c);
    if CompareKey(k, a, c) == Equal {
      PrecedesTransitive(keys[1..], a, b, c);
    }
  }

  /**
   Under the default order a lower status ordinal comes first, and books of
   the same status are ordered by title.
   */
  lemma StatusOrderPrecedes(a: BookRecord, b: BookRecord)
    ensures Precedes(SortDescriptors(Screen.SortOrder.Status), a, b) <==>
            a.status < b.status || (a.status == b.status && CompareStrings(a.title, b.title) == Less)
  {
    var keys := SortDescriptors(Screen.SortOrder.Status);
    assert keys[0] == StatusKey && keys[1..] == [TitleKey] && keys[1..][1..] == [];
    assert Precedes(keys, a, b) == match CompareInt(a.status, b.status)
      case Less => true
      case Greater => false
      case Equal => Precedes([TitleKey], a, b);
    assert Precedes([TitleKey], a, b) <==> CompareStrings(a.title, b.title) == Less;
  }

  lemma TitleOrderPrecedes(a: BookRecord, b: BookRecord)
    ensures Precedes(SortDescriptors(Screen.SortOrder.Title), a, b) <==> CompareStrings(a.title, b.title) == Less
  {
  }

  lemma AuthorOrderPrecedes(a: BookRecord, b: BookRecord)
    ensures Precedes(SortDescriptors(Screen.SortOrder.Author), a, b) <==> CompareStrings(a.author, b.author) == Less
  {
  }

  // ---------------------------------------------------------------------
  // Rating stars

  /** The half-open range `lo..<hi`; Swift traps when `hi < lo`. */
  function Range(lo: int, hi: int): (r: seq<int>)
    requires lo <= hi
    ensures |r| == hi - lo
    ensures forall i :: 0 <= i < |r| ==> r[i] == lo + i
    decreases hi - lo
  {
    if lo == hi then [] else [lo] + Range(lo + 1, hi)
  }

  /** The star images drawn beside a book, one per element of `1..<rating`. */
  function StarsDrawn(rating: Option<int>): (stars: seq<int>)
    requires rating.Some? ==> rating.value >= 1
    ensures rating.None? ==> stars == []
    ensures rating.Some? ==> |stars| == rating.value - 1
    ensures forall i :: 0 <= i < |stars| ==> stars[i] == i + 1
  {
    match rating
    case None => []
    case Some(r) => Range(1, r)
  }

  /** The evidently intended drawing: one star per point of the rating, `1...rating`. */
  function StarsIntended(rating: Option<int>): (stars: seq<int>)
    requires rating.Some? ==> rating.value >= 1
    ensures rating.None? ==> stars == []
    ensures rating.Some? ==> |stars| == rating.value
    ensures forall i :: 0 <= i < |stars| ==> stars[i] == i + 1
  {
    match rating
    case None => []
    case Some(r) => Range(1, r + 1)
  }

  /** The range as written draws one star short: a five-star book shows four. */
  lemma StarsOneShort(r: int)
    requires r >= 1
    ensures |StarsDrawn(Some(r))| == |StarsIntended(Some(r))| - 1
    ensures |StarsDrawn(Some(5))| == 4 && |StarsDrawn(Some(1))| == 0
  {
  }

  // ---------------------------------------------------------------------
  // Swipe to delete

  /** Each object appears at most once. */
  ghost predicate Distinct<T>(s: seq<T>)
  {
    forall i, j :: 0 <= i < j < |s| ==> s[i] != s[j]
  }

  /** `s` with every occurrence of `x` taken out, the rest in order. */
  function Without<T(==)>(s: seq<T>, x: T): (r: seq<T>)
    ensures forall i :: 0 <= i < |r| ==> r[i] in s && r[i] != x
    ensures forall i :: 0 <= i < |s| && s[i] != x ==> s[i] in r
  {
    if s == [] then []
    else
      var init := Without(s[..|s| - 1], x);
      var last := s[|s| - 1];
      assert s == s[..|s| - 1] + [last];
      init + (if last == x then [] else [last])
  }

  lemma {:induction false} WithoutDistinct<T>(s: seq<T>, x: T)
    requires Distinct(s)
    ensures Distinct(Without(s, x))
  {
    if s != [] {
      var init := s[..|s| - 1];
      WithoutDistinct(init, x);
      var r := Without(s, x);
      var last := s[|s| - 1];
      assert last !in init;
      assert last !in Without(init, x);
    }
  }

  lemma {:induction false} WithoutAbsent<T>(s: seq<T>, x: T)
    requires x !in s
    ensures Without(s, x) == s
  {
    if s != [] {
      var init := s[..|s| - 1];
      assert x !in init by {
        assert forall i :: 0 <= i < |init| ==> init[i] == s[i];
      }
      WithoutAbsent(init, x);
      assert s == init + [s[|s| - 1]];
    }
  }

  /** The books of `s` whose position is not listed in `indices`, in order. */
  function KeepUnlisted<T>(s: seq<T>, indices: set<int>): (r: seq<T>)
    ensures |r| <= |s|
  {
    if s == [] then []
    else
      KeepUnlisted(s[..|s| - 1], indices) + (if |s| - 1 in indices then [] else [s[|s| - 1]])
  }

  lemma {:induction false} KeepUnlistedAgree<T>(s: seq<T>, d: set<int>, e: set<int>)
    requires forall i :: 0 <= i < |s| ==> (i in d <==> i in e)
    ensures KeepUnlisted(s, d) == KeepUnlisted(s, e)
  {
    if s != [] {
      KeepUnlistedAgree(s[..|s| - 1], d, e);
    }
  }

  /** A book survives exactly when some unlisted position holds it. */
  lemma {:induction false} KeepUnlistedMembers<T>(s: seq<T>, indices: set<int>, x: T)
    ensures x in KeepUnlisted(s, indices) <==> exists i :: 0 <= i < |s| && i !in indices && s[i] == x
  {
    if s != [] {
      var init := s[..|s| - 1];
      KeepUnlistedMembers(init, indices, x);
      if exists i :: 0 <= i < |s| && i !in indices && s[i] == x {
        var i :| 0 <= i < |s| && i !in indices && s[i] == x;
        if i < |s| - 1 {
          assert init[i] == x;
        }
      }
    }
  }

  /** In a list without repeats, the book at a position survives iff the position is unlisted. */
  lemma DeletesExactlyListed<T>(s: seq<T>, indices: set<int>, i: int)
    requires Distinct(s)
    requires 0 <= i < |s|
    ensures s[i] in KeepUnlisted(s, indices) <==> i !in indices
  {
    KeepUnlistedMembers(s, indices, s[i]);
  }

  /** Listing only valid positions removes exactly that many books. */
  lemma {:induction false} KeepUnlistedLength<T>(s: seq<T>, indices: set<int>)
    requires forall i :: i in indices ==> 0 <= i < |s|
    ensures |KeepUnlisted(s, indices)| == |s| - |indices|
  {
    if s == [] {
      assert forall i :: i !in indices;
      assert indices == {};
    } else {
      var n := |s| - 1;
      var rest := indices - {n};
      KeepUnlistedAgree(s[..n], indices, rest);
      KeepUnlistedLength(s[..n], rest);
      if n in indices {
        assert indices == rest + {n};
      } else {
        assert indices == rest;
      }
    }
  }

  /** Deleting the book at one more unlisted position of a list without repeats. */
  lemma {:induction false} DeleteOneMore<T>(s: seq<T>, done: set<int>, i: int)
    requires Distinct(s)
    requires 0 <= i < |s| && i !in done
    ensures Without(KeepUnlisted(s, done), s[i]) == KeepUnlisted(s, done + {i})
  {
    var n := |s| - 1;
    var init := s[..n];
    var last := s[n];
    var kept := KeepUnlisted(init, done);
    var tail := if n in done then [] else [last];
    assert KeepUnlisted(s, done) == kept + tail;
    assert Without(kept + tail, s[i]) == Without(kept, s[i]) + (if tail == [] || last == s[i] then [] else [last]) by {
      if tail == [] {
        assert kept + tail == kept;
      } else {
        assert (kept + tail)[..|kept + tail| - 1] == kept;
      }
    }
    if i == n {
      KeepUnlistedMembers(init, done, last);
      WithoutAbsent(kept, last);
      KeepUnlistedAgree(init, done, done + {i});
    } else {
      DeleteOneMore(init, done, i);
      assert init[i] == s[i];
    }
  }

  /**
   The persistence context, reduced to the sequence of books it holds. Books
   are objects: deleting one removes that object, whatever its fields.
   */
  class ModelContext {
    var books: seq<Book>

    ghost predicate Valid()
      reads this
    {
      Distinct(books)
    }

    constructor (books: seq<Book>)
      requires Distinct(books)
      ensures Valid() && this.books == books
    {
      this.books := books;
    }

    /** `context.delete(book)`. */
    method Delete(book: Book)
      requires Valid()
      modifies this
      ensures Valid()
      ensures books == Without(old(books), book)
    {
      WithoutDistinct(books, book);
      books := Without(books, book);
    }
  }

  /**
   `onDelete`: the list shows the context's books (the fetched list, taken
   in the query's order), and every position of `indexSet` is deleted from
   the context, one at a time.
   */
  method OnDelete(context: ModelContext, indexSet: set<int>)
    requires context.Valid()
    requires forall i :: i in indexSet ==> 0 <= i < |context.books|
    modifies context
    ensures context.Valid()
    ensures context.books == KeepUnlisted(old(context.books), indexSet)
  {
    var books := context.books;
    var rest := indexSet;
    ghost var done: set<int> := {};
    KeepNone(books);
    while rest != {}
      invariant done + rest == indexSet && done !! rest
      invariant context.Valid()
      invariant context.books == KeepUnlisted(books, done)
      decreases rest
    {
      NonEmptyHasMember(rest);
      var index :| index in rest;
      DeleteOneMore(books, done, index);
      context.Delete(books[index]);
      rest := rest - {index};
      done := done + {index};
    }
    assert done == indexSet;
  }

  lemma NonEmptyHasMember(s: set<int>)
    requires s != {}
    ensures exists i :: i in s
  {
    if forall i :: i !in s {
      assert false;
    }
  }

  lemma {:induction false} KeepNone<T>(s: seq<T>)
    ensures KeepUnlisted(s, {}) == s
  {
    if s != [] {
      KeepNone(s[..|s| - 1]);
      assert s == s[..|s| - 1] + [s[|s| - 1]];
    }
  }
}
