/** The administrator's catalogue screen: search and two dropdown filters, a
    table sortable by any column with an ascending/descending toggle, deletion
    through a confirmation dialog, the category list and the stock figures. */
module AdminBooks {
  import opened Wrappers
  import opened Text
  import opened Query

  datatype StockStatus = Available | LowStock | OutOfStock {
    function Name(): string {
      match this
      case Available => "available"
      case LowStock => "low-stock"
      case OutOfStock => "out-of-stock"
    }
  }

  datatype Book = Book(
    id: int,
    title: string,
    author: string,
    isbn: string,
    category: string,
    totalCopies: int,
    availableCopies: int,
    borrowedCopies: int,
    reservedCopies: int,
    status: StockStatus,
    addedDate: string,
    lastBorrowed: string)

  // ---------------------------------------------------------------------------
  // The filtered view and the category list

  /** Title or author ignoring case, or the ISBN as typed. */
  predicate MatchesSearch(b: Book, term: string) {
    ContainsIgnoringCase(b.title, term) || ContainsIgnoringCase(b.author, term) || Contains(b.isbn, term)
  }

  predicate MatchesDropdowns(b: Book, selectedCategory: string, selectedStatus: string) {
    && (selectedCategory == "all" || b.category == selectedCategory)
    && (selectedStatus == "all" || b.status.Name() == selectedStatus)
  }

  function Matching(term: string, selectedCategory: string, selectedStatus: string): Book -> bool {
    (b: Book) => MatchesSearch(b, term) && MatchesDropdowns(b, selectedCategory, selectedStatus)
  }

  function FilteredBooks(bs: seq<Book>, term: string, selectedCategory: string, selectedStatus: string): seq<Book> {
    Filter(bs, Matching(term, selectedCategory, selectedStatus))
  }

  /** A book is listed exactly when the search and both dropdowns accept it;
      with no search and both dropdowns on "all" the whole catalogue is listed. */
  lemma FilteredBooksSpec(bs: seq<Book>, term: string, selectedCategory: string, selectedStatus: string, b: Book)
    ensures b in FilteredBooks(bs, term, selectedCategory, selectedStatus) <==>
            && b in bs
            && (ContainsIgnoringCase(b.title, term) || ContainsIgnoringCase(b.author, term) || Contains(b.isbn, term))
            && (selectedCategory == "all" || b.category == selectedCategory)
            && (selectedStatus == "all" || b.status.Name() == selectedStatus)
    ensures FilteredBooks(bs, "", "all", "all") == bs
  {
    FilterMembership(bs, Matching(term, selectedCategory, selectedStatus), b);
    forall k | 0 <= k < |bs| ensures Matching("", "all", "all")(bs[k]) {
      EmptyIsContainedIgnoringCase(bs[k].title);
    }
    FilterKeepsAll(bs, Matching("", "all", "all"));
  }

  function CategoryOf(b: Book): string { b.category }

  /** `Array.from(new Set(books.map(book => book.category)))`. */
  function Categories(bs: seq<Book>): seq<string> {
    Distinct(Column(bs, CategoryOf))
  }

  /** Every category of some book appears once, nothing else appears, and
      the order is that of first appearance. */
  lemma CategoriesSpec(bs: seq<Book>, i: nat, j: nat)
    ensures NoDuplicates(Categories(bs))
    ensures forall k :: 0 <= k < |bs| ==> bs[k].category in Categories(bs)
    ensures forall k :: 0 <= k < |Categories(bs)| ==>
              exists m :: 0 <= m < |bs| && bs[m].category == Categories(bs)[k]
    ensures i < j < |Categories(bs)| ==>
              FirstIndex(Column(bs, CategoryOf), Categories(bs)[i]) < FirstIndex(Column(bs, CategoryOf), Categories(bs)[j])
  {
    DistinctColumnSpec(bs, CategoryOf, i, j);
  }

  // ---------------------------------------------------------------------------
  // Sorting by a column

  /** `keyof Book`. */
  datatype BookField =
    | Id | Title | Author | Isbn | Category | TotalCopies | AvailableCopies
    | BorrowedCopies | ReservedCopies | StatusField | AddedDate | LastBorrowed

  datatype SortOrder = Asc | Desc

  /** A column value: a string or a number. */
  datatype FieldValue = Str(text: string) | Num(number: int)

  predicate IsTextField(f: BookField) {
    f.Title? || f.Author? || f.Isbn? || f.Category? || f.StatusField? || f.AddedDate? || f.LastBorrowed?
  }

  /** `book[field]`; every column holds values of one kind. */
  function FieldOf(b: Book, f: BookField): (v: FieldValue)
    ensures v.Str? <==> IsTextField(f)
  {
    match f
    case Id => Num(b.id)
    case Title => Str(b.title)
    case Author => Str(b.author)
    case Isbn => Str(b.isbn)
    case Category => Str(b.category)
    case TotalCopies => Num(b.totalCopies)
    case AvailableCopies => Num(b.availableCopies)
    case BorrowedCopies => Num(b.borrowedCopies)
    case ReservedCopies => Num(b.reservedCopies)
    case StatusField => Str(b.status.Name())
    case AddedDate => Str(b.addedDate)
    case LastBorrowed => Str(b.lastBorrowed)
  }

  /** Strings by `localeCompare`, numbers by subtraction, swapped when
      descending; values of different kinds compare as equal. */
  function CompareValues(order: SortOrder, localeCompare: (string, string) -> int, x: FieldValue, y: FieldValue): int {
    match (x, y)
    case (Str(s), Str(t)) => if order.Asc? then localeCompare(s, t) else localeCompare(t, s)
    case (Num(m), Num(n)) => if order.Asc? then m - n else n - m
    case _ => 0
  }

  function BookCompare(sortBy: BookField, order: SortOrder, localeCompare: (string, string) -> int): (Book, Book) -> int {
    (a: Book, b: Book) => CompareValues(order, localeCompare, FieldOf(a, sortBy), FieldOf(b, sortBy))
  }

  /** Descending compares the arguments the other way round; on a numeric
      column it is the negation of ascending, and on a text column it has the
      opposite sign whenever `localeCompare` flips its sign with its arguments. */
  lemma DescendingSwapsArguments(sortBy: BookField, localeCompare: (string, string) -> int, a: Book, b: Book)
    ensures BookCompare(sortBy, Desc, localeCompare)(a, b) == BookCompare(sortBy, Asc, localeCompare)(b, a)
    ensures !IsTextField(sortBy) ==>
            BookCompare(sortBy, Desc, localeCompare)(a, b) == -BookCompare(sortBy, Asc, localeCompare)(a, b)
    ensures SignAntisymmetric(localeCompare) ==>
            Sign(BookCompare(sortBy, Desc, localeCompare)(a, b)) == -Sign(BookCompare(sortBy, Asc, localeCompare)(a, b))
  {
    if IsTextField(sortBy) && SignAntisymmetric(localeCompare) {
      var x, y := FieldOf(a, sortBy).text, FieldOf(b, sortBy).text;
      assert localeCompare(x, y) < 0 <==> localeCompare(y, x) > 0;
      assert localeCompare(y, x) < 0 <==> localeCompare(x, y) > 0;
    }
  }

  lemma BookCompareFlipsSign(sortBy: BookField, order: SortOrder, localeCompare: (string, string) -> int)
    requires SignAntisymmetric(localeCompare)
    ensures SignAntisymmetric(BookCompare(sortBy, order, localeCompare))
  {
    var c := BookCompare(sortBy, order, localeCompare);
    forall a: Book, b: Book ensures c(a, b) < 0 <==> c(b, a) > 0 {
      if IsTextField(sortBy) {
        var x, y := FieldOf(a, sortBy).text, FieldOf(b, sortBy).text;
        assert localeCompare(x, y) < 0 <==> localeCompare(y, x) > 0;
        assert localeCompare(y, x) < 0 <==> localeCompare(x, y) > 0;
      }
    }
  }

  /** Every column and order gives a total preorder when `localeCompare` is
      one, and a consistent comparator when `localeCompare` is one. */
  lemma BookCompareIsTotalPreorder(sortBy: BookField, order: SortOrder, localeCompare: (string, string) -> int)
    requires IsTotalPreorder(localeCompare)
    ensures IsTotalPreorder(BookCompare(sortBy, order, localeCompare))
    ensures IsConsistent(localeCompare) ==> IsConsistent(BookCompare(sortBy, order, localeCompare))
  {
    var c := BookCompare(sortBy, order, localeCompare);
    forall a: Book, b: Book ensures c(a, b) <= 0 || c(b, a) <= 0 {
      if IsTextField(sortBy) {
        var x, y := FieldOf(a, sortBy).text, FieldOf(b, sortBy).text;
        assert localeCompare(x, y) <= 0 || localeCompare(y, x) <= 0;
      }
    }
    forall a: Book, b: Book, d: Book | c(a, b) <= 0 && c(b, d) <= 0 ensures c(a, d) <= 0 {
      if IsTextField(sortBy) {
        var x, y, z := FieldOf(a, sortBy).text, FieldOf(b, sortBy).text, FieldOf(d, sortBy).text;
        if order.Asc? {
          assert localeCompare(x, y) <= 0 && localeCompare(y, z) <= 0;
        } else {
          assert localeCompare(z, y) <= 0 && localeCompare(y, x) <= 0;
        }
      }
    }
    if SignAntisymmetric(localeCompare) {
      BookCompareFlipsSign(sortBy, order, localeCompare);
    }
  }

  /** `[...filteredBooks].sort(...)`: a sorted copy; the filtered list itself is a value and stays as it is. */
  function SortedBooks(filtered: seq<Book>, sortBy: BookField, order: SortOrder,
                      localeCompare: (string, string) -> int): seq<Book> {
    SortBy(filtered, BookCompare(sortBy, order, localeCompare))
  }

  /** The table shows the filtered books, each as often as it was filtered, in
      the order of the chosen column and direction. */
  lemma SortedBooksSpec(filtered: seq<Book>, sortBy: BookField, order: SortOrder,
                        localeCompare: (string, string) -> int, i: int, j: int)
    requires IsTotalPreorder(localeCompare)
    requires 0 <= i < j < |filtered|
    ensures |SortedBooks(filtered, sortBy, order, localeCompare)| == |filtered|
    ensures multiset(SortedBooks(filtered, sortBy, order, localeCompare)) == multiset(filtered)
    ensures var s := SortedBooks(filtered, sortBy, order, localeCompare);
            var x, y := FieldOf(s[i], sortBy), FieldOf(s[j], sortBy);
            && (x.Num? && order.Asc? ==> x.number <= y.number)
            && (x.Num? && order.Desc? ==> x.number >= y.number)
            && (x.Str? && order.Asc? ==> localeCompare(x.text, y.text) <= 0)
            && (x.Str? && order.Desc? ==> localeCompare(y.text, x.text) <= 0)
  {
    var c := BookCompare(sortBy, order, localeCompare);
    SortByPermutation(filtered, c);
    BookCompareIsTotalPreorder(sortBy, order, localeCompare);
    SortBySorted(filtered, c);
  }

  /** No two different books of bs have the same place in the column: their
      numbers differ, or `localeCompare` does not answer 0 for their strings. */
  ghost predicate ColumnTellsApart(bs: seq<Book>, sortBy: BookField, localeCompare: (string, string) -> int) {
    forall a, b :: a in bs && b in bs && a != b ==>
      CompareValues(Asc, localeCompare, FieldOf(a, sortBy), FieldOf(b, sortBy)) != 0
  }

  /** When the column tells every two books apart, switching from ascending
      to descending shows the ascending table exactly reversed. */
  lemma DescendingReversesAscending(filtered: seq<Book>, sortBy: BookField, localeCompare: (string, string) -> int)
    requires IsConsistent(localeCompare)
    requires ColumnTellsApart(filtered, sortBy, localeCompare)
    ensures SortedBooks(filtered, sortBy, Desc, localeCompare) == Reverse(SortedBooks(filtered, sortBy, Asc, localeCompare))
  {
    var asc, desc := BookCompare(sortBy, Asc, localeCompare), BookCompare(sortBy, Desc, localeCompare);
    BookCompareIsTotalPreorder(sortBy, Asc, localeCompare);
    forall x: Book, y: Book ensures desc(x, y) == asc(y, x) {
      DescendingSwapsArguments(sortBy, localeCompare, x, y);
    }
    assert NoTies(filtered, asc);
    SortByReversed(filtered, asc, desc);
  }

  /** Two books with the same value in the column keep their order in both
      directions (the sort is stable), so then the descending table is not the
      ascending one reversed. */
  lemma TiesKeepOrderBothWays(b1: Book, b2: Book, sortBy: BookField, localeCompare: (string, string) -> int)
    requires FieldOf(b1, sortBy) == FieldOf(b2, sortBy)
    requires IsTextField(sortBy) ==> SignAntisymmetric(localeCompare)
    ensures SortedBooks([b1, b2], sortBy, Asc, localeCompare) == [b1, b2]
    ensures SortedBooks([b1, b2], sortBy, Desc, localeCompare) == [b1, b2]
    ensures b1 != b2 ==>
            SortedBooks([b1, b2], sortBy, Desc, localeCompare) != Reverse(SortedBooks([b1, b2], sortBy, Asc, localeCompare))
  {
    if IsTextField(sortBy) {
      var x := FieldOf(b1, sortBy).text;
      assert localeCompare(x, x) < 0 <==> localeCompare(x, x) > 0;
    }
    assert [b1, b2][1..] == [b2] && [b2][1..] == [];
    forall order: SortOrder ensures SortedBooks([b1, b2], sortBy, order, localeCompare) == [b1, b2] {
      var c := BookCompare(sortBy, order, localeCompare);
      assert c(b1, b2) == 0;
      assert SortBy([b2], c) == [b2];
    }
    var r := Reverse([b1, b2]);
    assert r[0] == b2;
  }

  /** `handleSort`: a click on the current column flips the direction; a click
      on another column sorts by it, ascending. */
  function SortAfterClick(sortBy: BookField, order: SortOrder, field: BookField): (r: (BookField, SortOrder))
    ensures r.0 == field
    ensures r.1 == Asc <==> (field != sortBy || order == Desc)
  {
    if sortBy == field then (sortBy, if order.Asc? then Desc else Asc) else (field, Asc)
  }

  /** Two clicks on the column already sorted by give back the state; two clicks
      on a new column end descending on it. */
  lemma ClickTwice(sortBy: BookField, order: SortOrder, field: BookField)
    ensures var (f1, o1) := SortAfterClick(sortBy, order, field);
            SortAfterClick(f1, o1, field) == if field == sortBy then (sortBy, order) else (field, Desc)
  {
  }

  // ---------------------------------------------------------------------------
  // Deletion and the stock figures

  function IdIsNot(id: int): Book -> bool {
    (b: Book) => b.id != id
  }

  function IdIs(id: int): Book -> bool {
    (b: Book) => b.id == id
  }

  function Delete(bs: seq<Book>, id: int): seq<Book> {
    Filter(bs, IdIsNot(id))
  }

  /** Deleting removes exactly the books with that id and keeps the others in order. */
  lemma DeleteSpec(bs: seq<Book>, more: seq<Book>, id: int, b: Book)
    ensures b in Delete(bs, id) <==> b in bs && b.id != id
    ensures Delete(bs + more, id) == Delete(bs, id) + Delete(more, id)
    ensures |Delete(bs, id)| + |Filter(bs, IdIs(id))| == |bs|
  {
    FilterMembership(bs, IdIsNot(id), b);
    FilterAppend(bs, more, IdIsNot(id));
    FilterPartition2(bs, IdIsNot(id), IdIs(id));
  }

  /** `books.reduce((sum, book) => sum + count(book), 0)`. */
  function SumOf(bs: seq<Book>, count: Book -> int): int {
    if bs == [] then 0 else count(bs[0]) + SumOf(bs[1..], count)
  }

  function TotalCopiesOf(b: Book): int { b.totalCopies }
  function BorrowedCopiesOf(b: Book): int { b.borrowedCopies }

  lemma {:induction false} SumOfAppend(a: seq<Book>, b: seq<Book>, count: Book -> int)
    ensures SumOf(a + b, count) == SumOf(a, count) + SumOf(b, count)
  {
    if a == [] {
      assert a + b == b;
    } else {
      SumOfAppend(a[1..], b, count);
      assert (a + b)[1..] == a[1..] + b;
    }
  }

  /** A sum splits over the books that pass a filter and those that do not:
      deleting books takes exactly their copies off the figures. */
  lemma {:induction false} SumOfSplit(bs: seq<Book>, p: Book -> bool, q: Book -> bool, count: Book -> int)
    requires forall k :: 0 <= k < |bs| ==> p(bs[k]) != q(bs[k])
    ensures SumOf(Filter(bs, p), count) + SumOf(Filter(bs, q), count) == SumOf(bs, count)
  {
    if bs != [] {
      SumOfSplit(bs[1..], p, q, count);
      var h := [bs[0]];
      SumOfAppend(if p(bs[0]) then h else [], Filter(bs[1..], p), count);
      SumOfAppend(if q(bs[0]) then h else [], Filter(bs[1..], q), count);
    }
  }

  lemma DeleteTakesCopiesOff(bs: seq<Book>, id: int)
    ensures SumOf(Delete(bs, id), TotalCopiesOf) + SumOf(Filter(bs, IdIs(id)), TotalCopiesOf) == SumOf(bs, TotalCopiesOf)
  {
    SumOfSplit(bs, IdIsNot(id), IdIs(id), TotalCopiesOf);
  }

  /** When every book lends at most the copies it has, the borrowed figure is
      at most the total figure. */
  lemma {:induction false} BorrowedAtMostTotal(bs: seq<Book>)
    requires forall k :: 0 <= k < |bs| ==> bs[k].borrowedCopies <= bs[k].totalCopies
    ensures SumOf(bs, BorrowedCopiesOf) <= SumOf(bs, TotalCopiesOf)
  {
    if bs != [] {
      BorrowedAtMostTotal(bs[1..]);
    }
  }

  predicate IsLowStock(b: Book) {
    b.status == LowStock || b.status == OutOfStock
  }

  predicate IsInStock(b: Book) {
    b.status == Available
  }

  /** "Stock faible": the books low on stock or out of it; the others are available. */
  function LowStockCount(bs: seq<Book>): (n: nat)
    ensures n + |Filter(bs, IsInStock)| == |bs|
  {
    FilterPartition2(bs, IsLowStock, IsInStock);
    |Filter(bs, IsLowStock)|
  }

  // ---------------------------------------------------------------------------
  // The page state

  class Page {
    var books: seq<Book>
    var searchTerm: string
    var selectedCategory: string
    var selectedStatus: string
    var sortBy: BookField
    var sortOrder: SortOrder
    var showDeleteModal: bool
    var selectedBookId: Option<int>

    constructor (initial: seq<Book>)
      ensures books == initial && searchTerm == "" && selectedCategory == "all" && selectedStatus == "all"
      ensures sortBy == Title && sortOrder == Asc && !showDeleteModal && selectedBookId == None
    {
      books := initial;
      searchTerm := "";
      selectedCategory := "all";
      selectedStatus := "all";
      sortBy := Title;
      sortOrder := Asc;
      showDeleteModal := false;
      selectedBookId := None;
    }

    function Filtered(): seq<Book>
      reads this
    {
      FilteredBooks(books, searchTerm, selectedCategory, selectedStatus)
    }

    function Sorted(localeCompare: (string, string) -> int): seq<Book>
      reads this
    {
      SortedBooks(Filtered(), sortBy, sortOrder, localeCompare)
    }

    function CategoryList(): seq<string>
      reads this
    {
      Categories(books)
    }

    method HandleSort(field: BookField)
      modifies this
      ensures (sortBy, sortOrder) == SortAfterClick(old(sortBy), old(sortOrder), field)
      ensures books == old(books) && searchTerm == old(searchTerm)
      ensures selectedCategory == old(selectedCategory) && selectedStatus == old(selectedStatus)
      ensures showDeleteModal == old(showDeleteModal) && selectedBookId == old(selectedBookId)
    {
      if sortBy == field {
        sortOrder := if sortOrder.Asc? then Desc else Asc;
      } else {
        sortBy := field;
        sortOrder := Asc;
      }
    }

    method HandleDeleteBook(id: int)
      modifies this
      ensures selectedBookId == Some(id) && showDeleteModal
      ensures books == old(books) && sortBy == old(sortBy) && sortOrder == old(sortOrder)
      ensures searchTerm == old(searchTerm)
      ensures selectedCategory == old(selectedCategory) && selectedStatus == old(selectedStatus)
    {
      selectedBookId := Some(id);
      showDeleteModal := true;
    }

    /** "Annuler" in the confirmation: the dialog closes and the selection stays. */
    method CancelDelete()
      modifies this
      ensures !showDeleteModal && selectedBookId == old(selectedBookId)
      ensures books == old(books) && sortBy == old(sortBy) && sortOrder == old(sortOrder)
      ensures searchTerm == old(searchTerm)
      ensures selectedCategory == old(selectedCategory) && selectedStatus == old(selectedStatus)
    {
      showDeleteModal := false;
    }

    method ConfirmDelete()
      modifies this
      ensures IsSelected(old(selectedBookId)) ==>
        && books == Delete(old(books), old(selectedBookId).value)
        && !showDeleteModal && selectedBookId == None
      ensures !IsSelected(old(selectedBookId)) ==>
        && books == old(books) && showDeleteModal == old(showDeleteModal)
        && selectedBookId == old(selectedBookId)
      ensures sortBy == old(sortBy) && sortOrder == old(sortOrder) && searchTerm == old(searchTerm)
      ensures selectedCategory == old(selectedCategory) && selectedStatus == old(selectedStatus)
    {
      if IsSelected(selectedBookId) {
        books := Delete(books, selectedBookId.value);
        showDeleteModal := false;
        selectedBookId := None;
      }
    }
  }
}
