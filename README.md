# MyBooks core, modelled in Dafny

MyBooks is a SwiftUI app that keeps a list of books: title, author, the
dates a book was added, started and finished, a rating, a synopsis, who
recommended it, and a reading status (on the shelf, in progress,
completed). This project models the app's logic apart from its rendering
and its persistence framework:

- `Books` (`books.dfy`, from `MyBooks/Book.swift`): the `Status`
  enumeration with its ordinals, identity, labels and icon names; the
  book record and the `Book` class with its initializer defaults.
- `BookListScreen` (`booklistscreen.dfy`, from `MyBooks/BookListView.swift`):
  the `SortOrder` enumeration, its raw values and `allCases`, and the
  screen state whose initial sort order is by status.
- `BookListing` (`booklisting.dfy`, from `MyBooks/BookList.swift`): the
  sort descriptors each sort order selects and the strict lexicographic
  order they induce on books; the stars drawn for a rating; swipe to
  delete over the persistence context.
- `Editing` (`editing.dfy`, from `MyBooks/EditBookView.swift`): the edit
  screen as a class holding the edit buffer and the `firstView` flag,
  with `Load` (`onAppear`), `OnStatusChange` (the `onChange(of: status)`
  handler), `SelectStatus` (the status picker), `Update` (the "Update"
  button) and `Changed` (`changed`); the date rules of the handler as the
  function `NextDates`.
- `Wrappers` (`wrappers.dfy`): `Option`, for Swift's optionals.

Dates are integers (seconds from Foundation's 2001 reference date);
`DistantPast` is `Date.distantPast`, the "not set" sentinel. The clock is
a parameter `now` wherever the app reads `Date.now`.

The source files do not agree with each other, and the model follows the
edit screen, which reads and writes the record: the status is stored as
its `Int` ordinal (`Book.swift` declares it as `Status`), and the record has
`synopsis` and `recommendedBy` fields (`Book.swift` only has `summary`). The
initializer's `summary` argument is stored in `synopsis`, and
`recommendedBy` starts empty.

The status-change handler as written never applies its date rules: the
`firstView` flag starts true and is only set false inside the block that
runs when it is false. The model keeps the flag as real state, proves that
the handler leaves the dates alone while it is set and that nothing clears
it, and proves the date rules separately for the armed state.

Without a real change of status, the handler's final `else`
(`MyBooks/EditBookView.swift:75-78`) would stamp `dateCompleted` with the
current time, as `SameStatusWouldStamp` shows. SwiftUI only calls the
handler on a change, so `OnStatusChange` requires `oldValue != newValue`.

## Model

| member | source | states |
|---|---|---|
| `Books.Status.Id` | MyBooks/Book.swift:71-73 | a status's identity is the status itself |
| `Books.Ordinal` | MyBooks/Book.swift:62-63 | every status has a raw value in 0..2 |
| `Books.Decode` | MyBooks/Book.swift:62-63 | `Status(rawValue:)` gives a status exactly for 0..2, and that status has the given raw value; every other `Int` has none |
| `Books.AllStatusesInOrdinalOrder` | MyBooks/Book.swift:62-63 | `allCases` holds the three statuses, the i-th having raw value i: onShelf 0, inProgress 1, completed 2 |
| `Books.DecodeOrdinal` | MyBooks/Book.swift:62-63 | encoding a status and decoding the raw value gives the status back |
| `Books.OrdinalDecode` | MyBooks/EditBookView.swift:132 | an ordinal in 0..2 decodes (the force-unwrap succeeds) and re-encodes to itself |
| `Books.DescrValues` | MyBooks/Book.swift:75-84 | the labels are "On Shelf", "In Progress" and "Completed" |
| `Books.DescrInjective` | MyBooks/Book.swift:75-84 | two statuses have the same label only if they are equal |
| `Books.IconValues` | MyBooks/Book.swift:44-53 | the icon names: checkmark.diamond.fill, book.fill, books.vertical.fill |
| `Books.IconInjective` | MyBooks/Book.swift:44-53 | the icon mapping is total and gives each status a different tag |
| `Books.Book.constructor` | MyBooks/Book.swift:23-41 | every argument is stored unchanged in its field, the status as its ordinal |
| `Books.NewBookWithDefaults` | MyBooks/Book.swift:26-31 | a book given only title, author and the clock is on the shelf, with no start or completion date, no rating and an empty summary |
| `BookListScreen.SortOrder.Id` | MyBooks/BookListView.swift:13-15 | a sort order's identity is the sort order itself |
| `BookListScreen.AllCasesExactly` | MyBooks/BookListView.swift:11-12 | `allCases` is status, title, author in that order, lists every case and repeats none |
| `BookListScreen.RawValues` | MyBooks/BookListView.swift:11-12 | the raw values are "status", "title" and "author" |
| `BookListScreen.RawValueInjective` | MyBooks/BookListView.swift:11-12 | distinct sort orders have distinct raw values |
| `BookListScreen.BookListView.constructor` | MyBooks/BookListView.swift:19-20 | the list starts sorted by status, with the new-book sheet closed |
| `BookListing.SortDescriptors` | MyBooks/BookList.swift:23-31 | every sort order selects at least one key and no key twice |
| `BookListing.SortDescriptorsValues` | MyBooks/BookList.swift:24-31 | status selects [status, title], title selects [title], author selects [author] |
| `BookListing.PrecedesIrreflexive` | MyBooks/BookList.swift:24-32 | under any key list no book comes before itself |
| `BookListing.PrecedesAsymmetric` | MyBooks/BookList.swift:24-32 | if a comes before b, b does not come before a |
| `BookListing.PrecedesTransitive` | MyBooks/BookList.swift:24-32 | the order the keys induce is transitive, hence a strict order |
| `BookListing.StatusOrderPrecedes` | MyBooks/BookList.swift:25-26 | by status: a lower ordinal comes first, and equal statuses are ordered by title |
| `BookListing.TitleOrderPrecedes` | MyBooks/BookList.swift:27-28 | by title: a comes first exactly when its title is smaller |
| `BookListing.AuthorOrderPrecedes` | MyBooks/BookList.swift:29-30 | by author: a comes first exactly when its author is smaller |
| `BookListing.Range` | MyBooks/BookList.swift:50 | `lo..<hi` needs lo <= hi and holds hi - lo consecutive values from lo |
| `BookListing.StarsDrawn` | MyBooks/BookList.swift:48-50 | no rating draws no stars; a rating r >= 1 draws r - 1 stars, numbered 1 to r - 1 |
| `BookListing.StarsIntended` | MyBooks/BookList.swift:48-50 | the corrected drawing: a rating r draws r stars |
| `BookListing.StarsOneShort` | MyBooks/BookList.swift:50 | as written every rating draws one star fewer than its value; 5 draws 4 and 1 draws none |
| `BookListing.ModelContext.Delete` | MyBooks/BookList.swift:65 | deleting a book removes that object from the context and keeps the others in order |
| `BookListing.OnDelete` | MyBooks/BookList.swift:62-67 | deleting an index set leaves exactly the books at the unlisted positions, in order |
| `BookListing.DeleteOneMore` | MyBooks/BookList.swift:63-65 | each deletion in the loop removes the book at one more listed position |
| `BookListing.KeepUnlistedMembers` | MyBooks/BookList.swift:62-67 | a book survives exactly when it sits at some position not in the index set |
| `BookListing.DeletesExactlyListed` | MyBooks/BookList.swift:62-67 | in a list without repeats the book at a position survives iff the position is not listed |
| `BookListing.KeepUnlistedLength` | MyBooks/BookList.swift:62-67 | deleting a set of valid positions removes exactly that many books |
| `Editing.TransitionTable` | MyBooks/EditBookView.swift:62-78 | on a change: to onShelf clears both dates; completed to inProgress clears the completion date; onShelf to inProgress starts now; onShelf to completed starts at dateAdded and completes now; inProgress to completed completes now |
| `Editing.SameStatusWouldStamp` | MyBooks/EditBookView.swift:75-78 | called without a change, the final branch would still stamp the completion date |
| `Editing.NextDatesFit` | MyBooks/EditBookView.swift:60-81 | a change keeps the dates meaningful for the status (no dates on the shelf, no completion date in progress) and completing stamps now |
| `Editing.NextDatesIdempotent` | MyBooks/EditBookView.swift:62-78 | applying the same change twice at the same time changes nothing the second time |
| `Editing.EditBookView.constructor` | MyBooks/EditBookView.swift:13-22 | the buffer starts on the shelf, empty, with unset dates and `firstView` true |
| `Editing.EditBookView.Changed` | MyBooks/EditBookView.swift:143-153 | `changed` holds exactly when the buffer, with the status encoded, differs from the book in one of the nine fields |
| `Editing.EditBookView.Load` | MyBooks/EditBookView.swift:131-141 | needs a known stored ordinal; the buffer equals the book afterwards, so `changed` is false, and the flag is untouched |
| `Editing.EditBookView.OnStatusChange` | MyBooks/EditBookView.swift:60-81 | while `firstView` holds the dates are untouched; when it is clear the dates follow the table; the flag never changes and no other field does |
| `Editing.EditBookView.SelectStatus` | MyBooks/EditBookView.swift:27-31 | the picker stores the status and on a change runs the handler, so dates stay put while the flag holds |
| `Editing.EditBookView.SelectStatusIntended` | MyBooks/EditBookView.swift:60-81 | the corrected picker: every change applies the table and keeps the dates meaningful for the new status |
| `Editing.EditBookView.Update` | MyBooks/EditBookView.swift:116-125 | the book receives every buffered field, the status as its ordinal, so `changed` is false afterwards |
| `Editing.NeverArmed` | MyBooks/EditBookView.swift:61-80 | after loading an on-shelf book and picking inProgress then completed, both dates are still unset and the flag still holds |
| `Editing.ArmedExample` | MyBooks/EditBookView.swift:62-74 | with the corrected picker the same choices set both dates to now |

## Findings

| source | as written | input that shows it | evidently intended | confidence | as-written member | corrected member |
|---|---|---|---|---|---|---|
| MyBooks/EditBookView.swift:79 | `firstView = false` sits inside `if !firstView`, and `firstView` starts true | load an on-shelf book, pick In Progress: the start date stays unset | loading skips the date rules, and every later status the user picks applies them | high (not executed) | `Editing.NeverArmed` | `Editing.EditBookView.SelectStatusIntended` |
| MyBooks/BookList.swift:50 | stars drawn for `1..<rating` | rating 5 shows four stars, rating 1 shows none | one star per rating point, `1...rating` | medium (not executed) | `BookListing.StarsOneShort` | `BookListing.StarsIntended` |

## Left out

- SwiftUI rendering, layout, navigation, sheets, toolbars, previews and `dismiss()`: presentation only.
- SwiftData (`@Model`, `@Query`, `modelContainer`): a foreign framework; only the key selection, the order the keys induce and deletion on a sequence are modelled. The actual fetching and sorting happen in the framework.
- OnDelete: the fetched list is taken to be the context's books in the query's order; the query's re-fetch after the deletions is not modelled, and the index set is visited in an arbitrary order rather than ascending.
- BookListing.CompareStrings: the framework sorts titles and authors with the `SortDescriptor` default comparator for strings, `localizedStandard`, which ignores case, follows the locale and compares runs of digits as numbers; the model compares character codes one by one. The two disagree on case and on embedded numbers: the model puts "Zebra" before "apple" and "Book 10" before "Book 2", and the app lists "apple" and "Book 2" first.
- SelectStatus: SwiftUI's observation machinery is reduced to "call the handler when the value changed"; the change that `onAppear`'s own write of `status` causes is not dispatched, which makes no difference as written since the handler does nothing while the flag holds.
- Date-picker ranges (`in: dateAdded...`, `in: dateStarted...`): input limits of the UI only; no ordering between the three dates is claimed.
- MyBooksApp.swift: app bootstrap printing a path and configuring the container; I/O only.
- The real clock and `Date` arithmetic: `now` is a parameter.
- `RatingsView`, `NewBookView`, `Preview` and `Book.sampleBooks` are not part of this model.
- Rating range: the code enforces no 1..5 range, so none is modelled; only the `r >= 1` that the star range traps without is a precondition.
- A stored status outside 0..2: the force-unwrap traps, so `Load` and `Changed` require a known ordinal.
