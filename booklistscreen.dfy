/**
 The sort order the book list offers and the screen state that holds it
 (MyBooks/BookListView.swift).
 */
module BookListScreen {

  /** `SortOrder`: a `String`-backed enum; `allCases` lists it in this order. */
  datatype SortOrder = Status | Title | Author {

    /** `Identifiable`: a sort order is its own identity. */
    function Id(): (r: SortOrder)
      ensures r == this
    {
      this
    }

    /** The raw value, shown in the picker as "Sort by <raw value>". */
    function RawValue(): string
    {
      match this
      case Status => "status"
      case Title => "title"
      case Author => "author"
    }
  }

  /** `SortOrder.allCases`. */
  const AllCases: seq<SortOrder> := [Status, Title, Author]

  lemma AllCasesExactly()
    ensures AllCases == [Status, Title, Author]
    ensures forall o: SortOrder :: o in AllCases
    ensures forall i, j :: 0 <= i < j < |AllCases| ==> AllCases[i] != AllCases[j]
  {
    forall o: SortOrder ensures o in AllCases {
      match o
      case Status => assert AllCases[0] == o;
      case Title => assert AllCases[1] == o;
      case Author => assert AllCases[2] == o;
    }
  }

  lemma RawValues()
    ensures Status.RawValue() == "status"
    ensures Title.RawValue() == "title"
    ensures Author.RawValue() == "author"
  {
  }

  lemma RawValueInjective(o: SortOrder, p: SortOrder)
    ensures o.RawValue() == p.RawValue() <==> o == p
  {
  }

  /** The screen's `@State`: the chosen sort order and whether the new-book sheet is up. */
  class BookListView {
    var sortOrder: SortOrder
    var createNewBook: bool

    constructor ()
      ensures sortOrder == Status
      ensures !createNewBook
    {
      sortOrder := Status;
      createNewBook := false;
    }
  }
}
