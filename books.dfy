/**
 The book record, its reading status and the status's derived names
 (MyBooks/Book.swift).

 Dates are whole numbers of seconds relative to the reference date of
 Foundation's `Date` (2001-01-01 00:00 UTC); `DistantPast` stands for
 `Date.distantPast`, which the app uses to mean "this date has not happened".
 */
module Books {
  import opened Wrappers

  const DistantPast: int := -63114076800

  /** The reading status; Swift backs it by `Int` with ordinals 0, 1, 2. */
  datatype Status = OnShelf | InProgress | Completed {

    /** `Identifiable`: a status is its own identity. */
    function Id(): (r: Status)
      ensures r == this
    {
      this
    }
  }

  /** `rawValue`: the ordinal a status is stored as. */
  function Ordinal(s: Status): (n: int)
    ensures 0 <= n <= 2
  {
    match s
    case OnShelf => 0
    case InProgress => 1
    case Completed => 2
  }

  /** `Status(rawValue:)`: defined exactly on the ordinals 0..2. */
  function Decode(n: int): (r: Option<Status>)
    ensures r.Some? <==> 0 <= n <= 2
    ensures r.Some? ==> Ordinal(r.value) == n
  {
    if n == 0 then Some(OnShelf)
    else if n == 1 then Some(InProgress)
    else if n == 2 then Some(Completed)
    else None
  }

  /** `Status.allCases`, in declaration order. */
  const AllStatuses: seq<Status> := [OnShelf, InProgress, Completed]

  lemma AllStatusesInOrdinalOrder()
    ensures |AllStatuses| == 3
    ensures forall i :: 0 <= i < |AllStatuses| ==> Ordinal(AllStatuses[i]) == i
    ensures forall s: Status :: s in AllStatuses
  {
    forall s: Status ensures s in AllStatuses {
      assert AllStatuses[Ordinal(s)] == s;
    }
  }

  /** Encoding a status and decoding it again gives the status back. */
  lemma DecodeOrdinal(s: Status)
    ensures Decode(Ordinal(s)) == Some(s)
  {
  }

  /** Decoding a stored ordinal and re-encoding it gives the ordinal back. */
  lemma OrdinalDecode(n: int)
    requires 0 <= n <= 2
    ensures Decode(n).Some? && Ordinal(Decode(n).value) == n
  {
  }

  /** `descr`: the label shown in the status picker. */
  function Descr(s: Status): string
  {
    match s
    case OnShelf => "On Shelf"
    case InProgress => "In Progress"
    case Completed => "Completed"
  }

  lemma DescrValues()
    ensures Descr(OnShelf) == "On Shelf"
    ensures Descr(InProgress) == "In Progress"
    ensures Descr(Completed) == "Completed"
  {
  }

  lemma DescrInjective(s: Status, t: Status)
    ensures Descr(s) == Descr(t) <==> s == t
  {
  }

  /** `icon`: the system image name shown for a status, as a symbolic tag. */
  function Icon(s: Status): string
  {
    match s
    case OnShelf => "checkmark.diamond.fill"
    case InProgress => "book.fill"
    case Completed => "books.vertical.fill"
  }

  lemma IconValues()
    ensures Icon(OnShelf) == "checkmark.diamond.fill"
    ensures Icon(InProgress) == "book.fill"
    ensures Icon(Completed) == "books.vertical.fill"
  {
  }

  lemma IconInjective(s: Status, t: Status)
    ensures Icon(s) == Icon(t) <==> s == t
  {
  }

  /** The stored fields of a book, as one value. */
  datatype BookRecord = BookRecord(
    title: string,
    author: string,
    dateAdded: int,
    dateStarted: int,
    dateCompleted: int,
    synopsis: string,
    rating: Option<int>,
    status: int,
    recommendedBy: string)

  /**
   A persisted book. The fields are those the edit screen reads and writes:
   the status is held as its ordinal, and the initializer's `summary` is the
   `synopsis` field.
   */
  class Book {
    var title: string
    var author: string
    var dateAdded: int
    var dateStarted: int
    var dateCompleted: int
    var synopsis: string
    var rating: Option<int>
    var status: int
    var recommendedBy: string

    /** The current field values of this book. */
    function Record(): BookRecord
      reads this
    {
      BookRecord(title, author, dateAdded, dateStarted, dateCompleted,
                 synopsis, rating, status, recommendedBy)
    }

    /**
     The initializer. `dateAdded` defaults to the current time in the app,
     so the caller passes the clock reading; the other defaults are those of
     the app: no start or completion date, an empty summary, no rating, on
     the shelf.
     */
    constructor (
      title: string,
      author: string,
      dateAdded: int,
      dateStarted: int := DistantPast,
      dateCompleted: int := DistantPast,
      summary: string := "",
      rating: Option<int> := None,
      status: Status := OnShelf)
      ensures Record() == BookRecord(title, author, dateAdded, dateStarted, dateCompleted,
                                     summary, rating, Ordinal(status), "")
      ensures Decode(this.status) == Some(status)
    {
      this.title := title;
      this.author := author;
      this.dateAdded := dateAdded;
      this.dateStarted := dateStarted;
      this.dateCompleted := dateCompleted;
      this.synopsis := summary;
      this.rating := rating;
      this.status := Ordinal(status);
      this.recommendedBy := "";
    }
  }

  /** A book created from a title and an author only carries the defaults. */
  method NewBookWithDefaults(title: string, author: string, now: int) returns (b: Book)
    ensures b.title == title && b.author == author && b.dateAdded == now
    ensures Decode(b.status) == Some(OnShelf)
    ensures b.dateStarted == DistantPast && b.dateCompleted == DistantPast
    ensures b.rating == None && b.synopsis == ""
  {
    b := new Book(title, author, now);
  }
}
