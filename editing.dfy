/**
 The edit screen for one book (MyBooks/EditBookView.swift): an edit buffer
 loaded from the book, a status-change handler that fills in the reading
 dates, a `firstView` flag meant to keep that handler quiet while the
 screen is being populated, a write-back to the book, and a test of whether
 the buffer differs from the book.
 */
module Editing {
  import opened Wrappers
  import opened Books

  /** The pair of dates the status-change handler rewrites. */
  datatype Dates = Dates(started: int, completed: int)

  /**
   The date rules of the status-change handler, once the handler is armed:
   the `if`/`else if` chain on the old and new status.
   */
  function NextDates(oldValue: Status, newValue: Status, dateAdded: int, d: Dates, now: int): Dates
  {
    if newValue == OnShelf then Dates(DistantPast, DistantPast)
    else if newValue == InProgress && oldValue == Completed then Dates(d.started, DistantPast)
    else if newValue == InProgress && oldValue == OnShelf then Dates(now, d.completed)
    else if newValue == Completed && oldValue == OnShelf then Dates(dateAdded, now)
    else Dates(d.started, now)
  }

  /** The transition table, one row per genuine change of status. */
  lemma TransitionTable(oldValue: Status, newValue: Status, dateAdded: int, d: Dates, now: int)
    requires oldValue != newValue
    ensures var r := NextDates(oldValue, newValue, dateAdded, d, now);
      && (newValue == OnShelf ==> r == Dates(DistantPast, DistantPast))
      && (oldValue == Completed && newValue == InProgress ==> r == Dates(d.started, DistantPast))
      && (oldValue == OnShelf && newValue == InProgress ==> r == Dates(now, d.completed))
      && (oldValue == OnShelf && newValue == Completed ==> r == Dates(dateAdded, now))
      && (oldValue == InProgress && newValue == Completed ==> r == Dates(d.started, now))
  {
  }

  /**
   Without a real change the final `else` would still stamp a completion
   date, which is why the handler is only ever called on a change.
   */
  lemma SameStatusWouldStamp(dateAdded: int, d: Dates, now: int)
    ensures NextDates(InProgress, InProgress, dateAdded, d, now) == Dates(d.started, now)
    ensures NextDates(Completed, Completed, dateAdded, d, now) == Dates(d.started, now)
  {
  }

  /**
   Which dates mean something for a status: a book on the shelf has neither
   date, a book in progress has no completion date.
   */
  predicate DatesFit(s: Status, d: Dates)
  {
    && (s == OnShelf ==> d.started == DistantPast && d.completed == DistantPast)
    && (s == InProgress ==> d.completed == DistantPast)
  }

  /**
   A genuine change keeps the dates fitting the status, and completing a
   book always stamps its completion date with the current time.
   */
  lemma NextDatesFit(oldValue: Status, newValue: Status, dateAdded: int, d: Dates, now: int)
    requires oldValue != newValue
    requires DatesFit(oldValue, d)
    ensures DatesFit(newValue, NextDates(oldValue, newValue, dateAdded, d, now))
    ensures newValue == Completed ==> NextDates(oldValue, newValue, dateAdded, d, now).completed == now
  {
  }

  /** Applying the same change again at the same time changes nothing more. */
  lemma NextDatesIdempotent(oldValue: Status, newValue: Status, dateAdded: int, d: Dates, now: int)
    ensures var r := NextDates(oldValue, newValue, dateAdded, d, now);
      NextDates(oldValue, newValue, dateAdded, r, now) == r
  {
  }

  class EditBookView {
    const book: Book
    var status: Status
    var rating: Option<int>
    var title: string
    var author: string
    var synopsis: string
    var dateAdded: int
    var dateStarted: int
    var dateCompleted: int
    var firstView: bool
    var recommendedBy: string

    /** The `@State` initial values. */
    constructor (book: Book)
      ensures this.book == book
      ensures status == OnShelf && rating == None
      ensures title == "" && author == "" && synopsis == "" && recommendedBy == ""
      ensures dateAdded == DistantPast && dateStarted == DistantPast && dateCompleted == DistantPast
      ensures firstView
    {
      this.book := book;
      status := OnShelf;
      rating := None;
      title := "";
      author := "";
      synopsis := "";
      dateAdded := DistantPast;
      dateStarted := DistantPast;
      dateCompleted := DistantPast;
      firstView := true;
      recommendedBy := "";
    }

    /** The buffer as a record, its status encoded as the book stores it. */
    function Buffer(): BookRecord
      reads this
    {
      BookRecord(title, author, dateAdded, dateStarted, dateCompleted,
                 synopsis, rating, Ordinal(status), recommendedBy)
    }

    /**
     `changed`: some buffered field differs from the book. The buffered
     status is compared with the decoded stored ordinal, which traps when
     the ordinal is not 0..2.
     */
    function Changed(): (c: bool)
      reads this, book
      requires Decode(book.status).Some?
      ensures c <==> Buffer() != book.Record()
    {
      || status != Decode(book.status).value
      || rating != book.rating
      || title != book.title
      || author != book.author
      || synopsis != book.synopsis
      || dateAdded != book.dateAdded
      || dateStarted != book.dateStarted
      || dateCompleted != book.dateCompleted
      || recommendedBy != book.recommendedBy
    }

    /** `onAppear`: copy the book into the buffer; the force-unwrap needs a known ordinal. */
    method Load()
      requires Decode(book.status).Some?
      modifies this
      ensures Buffer() == book.Record()
      ensures status == Decode(book.status).value
      ensures firstView == old(firstView)
      ensures !Changed()
    {
      status := Decode(book.status).value;
      rating := book.rating;
      title := book.title;
      author := book.author;
      synopsis := book.synopsis;
      dateAdded := book.dateAdded;
      dateStarted := book.dateStarted;
      dateCompleted := book.dateCompleted;
      recommendedBy := book.recommendedBy;
    }

    /**
     `onChange(of: status)`, as written: the table runs only when
     `firstView` is false, and the only write to `firstView` is inside that
     guard, so a flag that starts true stays true.
     */
    method OnStatusChange(oldValue: Status, newValue: Status, now: int)
      requires oldValue != newValue
      modifies this
      ensures old(firstView) ==> dateStarted == old(dateStarted) && dateCompleted == old(dateCompleted)
      ensures !old(firstView) ==>
        Dates(dateStarted, dateCompleted) ==
        NextDates(oldValue, newValue, dateAdded, old(Dates(dateStarted, dateCompleted)), now)
      ensures firstView == old(firstView)
      ensures status == old(status) && rating == old(rating) && title == old(title)
      ensures author == old(author) && synopsis == old(synopsis)
      ensures dateAdded == old(dateAdded) && recommendedBy == old(recommendedBy)
    {
      if !firstView {
        if newValue == OnShelf {
          dateStarted := DistantPast;
          dateCompleted := DistantPast;
        } else if newValue == InProgress && oldValue == Completed {
          dateCompleted := DistantPast;
        } else if newValue == InProgress && oldValue == OnShelf {
          dateStarted := now;
        } else if newValue == Completed && oldValue == OnShelf {
          dateCompleted := now;
          dateStarted := dateAdded;
        } else {
          dateCompleted := now;
        }
        firstView := false;
      }
    }

    /**
     The status picker: the binding stores the chosen status, and SwiftUI
     then calls the `onChange(of: status)` handler if the value changed.
     */
    method SelectStatus(newValue: Status, now: int)
      modifies this
      ensures status == newValue
      ensures old(firstView) ==> dateStarted == old(dateStarted) && dateCompleted == old(dateCompleted)
      ensures !old(firstView) && old(status) != newValue ==>
        Dates(dateStarted, dateCompleted) ==
        NextDates(old(status), newValue, dateAdded, old(Dates(dateStarted, dateCompleted)), now)
      ensures old(status) == newValue ==> dateStarted == old(dateStarted) && dateCompleted == old(dateCompleted)
      ensures firstView == old(firstView)
      ensures rating == old(rating) && title == old(title) && author == old(author)
      ensures synopsis == old(synopsis) && dateAdded == old(dateAdded) && recommendedBy == old(recommendedBy)
    {
      var oldValue := status;
      status := newValue;
      if oldValue != newValue {
        OnStatusChange(oldValue, newValue, now);
      }
    }

    /**
     The picker as the guard evidently means it to behave: loading the
     screen never runs the date rules (the buffer is filled by `Load`), and
     every status the user then picks that differs from the current one
     applies the transition table.
     */
    method SelectStatusIntended(newValue: Status, now: int)
      modifies this
      ensures status == newValue
      ensures old(status) != newValue ==>
        Dates(dateStarted, dateCompleted) ==
        NextDates(old(status), newValue, dateAdded, old(Dates(dateStarted, dateCompleted)), now)
      ensures old(status) == newValue ==> dateStarted == old(dateStarted) && dateCompleted == old(dateCompleted)
      ensures DatesFit(old(status), old(Dates(dateStarted, dateCompleted))) ==>
        DatesFit(status, Dates(dateStarted, dateCompleted))
      ensures firstView == old(firstView)
      ensures rating == old(rating) && title == old(title) && author == old(author)
      ensures synopsis == old(synopsis) && dateAdded == old(dateAdded) && recommendedBy == old(recommendedBy)
    {
      var oldValue := status;
      status := newValue;
      if oldValue != newValue {
        var d := NextDates(oldValue, newValue, dateAdded, Dates(dateStarted, dateCompleted), now);
        if DatesFit(oldValue, Dates(dateStarted, dateCompleted)) {
          NextDatesFit(oldValue, newValue, dateAdded, Dates(dateStarted, dateCompleted), now);
        }
        dateStarted, dateCompleted := d.started, d.completed;
      }
    }

    /** "Update": write the whole buffer back to the book. */
    method Update()
      modifies book
      ensures book.Record() == Buffer()
      ensures Decode(book.status) == Some(status)
      ensures !Changed()
    {
      book.status := Ordinal(status);
      book.rating := rating;
      book.title := title;
      book.author := author;
      book.synopsis := synopsis;
      book.dateAdded := dateAdded;
      book.dateStarted := dateStarted;
      book.dateCompleted := dateCompleted;
      book.recommendedBy := recommendedBy;
      DecodeOrdinal(status);
    }
  }

  /**
   The handler as written never fires: on a screen loaded from a book on
   the shelf, picking "In Progress" leaves the start date unset, where the
   transition table sets it to the current time, and picking "Completed"
   after that leaves the completion date unset as well.
   */
  method NeverArmed(book: Book, now: int) returns (view: EditBookView)
    requires Decode(book.status) == Some(OnShelf)
    requires book.dateStarted == DistantPast && book.dateCompleted == DistantPast
    requires now != DistantPast
    ensures view.book == book && view.firstView && view.status == Completed
    ensures view.dateStarted == DistantPast && view.dateCompleted == DistantPast
    ensures NextDates(OnShelf, InProgress, book.dateAdded, Dates(DistantPast, DistantPast), now).started == now
  {
    view := new EditBookView(book);
    view.Load();
    view.SelectStatus(InProgress, now);
    view.SelectStatus(Completed, now);
  }

  /** With the intended picker the same two choices record both dates. */
  method ArmedExample(book: Book, now: int) returns (view: EditBookView)
    requires Decode(book.status) == Some(OnShelf)
    ensures view.book == book && view.status == Completed
    ensures view.dateStarted == now && view.dateCompleted == now
  {
    view := new EditBookView(book);
    view.Load();
    view.SelectStatusIntended(InProgress, now);
    view.SelectStatusIntended(Completed, now);
  }
}
