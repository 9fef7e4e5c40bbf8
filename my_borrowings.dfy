/** The end user's loan list: filtered by status, sorted by a chosen key, with
    return and renewal (renewal is at most twice, but only the buttons enforce it). */
module MyBorrowings {
  import opened Wrappers
  import opened Text
  import opened Query
  import opened Loans

  /** A loan of the signed-in user; dates are day numbers. */
  datatype Borrowing = Borrowing(
    id: int,
    bookId: int,
    bookTitle: string,
    bookAuthor: string,
    bookGenre: string,
    borrowedAt: int,
    dueDate: int,
    returnedAt: Option<int>,
    status: UserStatus,
    renewalCount: int)

  // ---------------------------------------------------------------------------
  // The filter and sort effect

  function HasStatus(filterStatus: string): Borrowing -> bool {
    (b: Borrowing) => b.status.Name() == filterStatus
  }

  /** The status dropdown: "all" keeps the list as it is. */
  function StatusFiltered(bs: seq<Borrowing>, filterStatus: string): seq<Borrowing> {
    if filterStatus != "all" then Filter(bs, HasStatus(filterStatus)) else bs
  }

  /** The comparator of the sort dropdown. Dates compare as instants
      (`getTime()` differences), titles and authors with `localeCompare`;
      any other key compares everything as equal. */
  function Compare(sortBy: string, localeCompare: (string, string) -> int, a: Borrowing, b: Borrowing): int {
    match sortBy
    case "due_date" => StartOfDay(a.dueDate) - StartOfDay(b.dueDate)
    case "borrowed_at" => StartOfDay(b.borrowedAt) - StartOfDay(a.borrowedAt)
    case "title" => localeCompare(a.bookTitle, b.bookTitle)
    case "author" => localeCompare(a.bookAuthor, b.bookAuthor)
    case _ => 0
  }

  function ComparatorFor(sortBy: string, localeCompare: (string, string) -> int): (Borrowing, Borrowing) -> int {
    (a: Borrowing, b: Borrowing) => Compare(sortBy, localeCompare, a, b)
  }

  /** `filteredBorrowings` after the effect has run. */
  function Displayed(bs: seq<Borrowing>, filterStatus: string, sortBy: string,
                     localeCompare: (string, string) -> int): seq<Borrowing> {
    SortBy(StatusFiltered(bs, filterStatus), ComparatorFor(sortBy, localeCompare))
  }

  /** "all" keeps every loan; any other value keeps exactly the loans with that status. */
  lemma StatusFilteredSpec(bs: seq<Borrowing>, filterStatus: string, b: Borrowing)
    ensures filterStatus == "all" ==> StatusFiltered(bs, filterStatus) == bs
    ensures b in StatusFiltered(bs, filterStatus) <==>
            b in bs && (filterStatus == "all" || b.status.Name() == filterStatus)
  {
    if filterStatus != "all" {
      FilterMembership(bs, HasStatus(filterStatus), b);
    }
  }

  /** The list shown is a reordering of the filtered loans, so the count the
      page prints is the number of loans that pass the filter. */
  lemma DisplayedIsPermutation(bs: seq<Borrowing>, filterStatus: string, sortBy: string,
                               localeCompare: (string, string) -> int)
    ensures multiset(Displayed(bs, filterStatus, sortBy, localeCompare)) == multiset(StatusFiltered(bs, filterStatus))
    ensures |Displayed(bs, filterStatus, sortBy, localeCompare)| == |StatusFiltered(bs, filterStatus)|
  {
    SortByPermutation(StatusFiltered(bs, filterStatus), ComparatorFor(sortBy, localeCompare));
  }

  /** The comparator is a total preorder whenever `localeCompare` is one. */
  lemma ComparatorIsTotalPreorder(sortBy: string, localeCompare: (string, string) -> int)
    requires IsTotalPreorder(localeCompare) || sortBy !in {"title", "author"}
    ensures IsTotalPreorder(ComparatorFor(sortBy, localeCompare))
  {
    var c := ComparatorFor(sortBy, localeCompare);
    if sortBy == "title" {
      forall a: Borrowing, b: Borrowing ensures c(a, b) <= 0 || c(b, a) <= 0 {
        assert localeCompare(a.bookTitle, b.bookTitle) <= 0 || localeCompare(b.bookTitle, a.bookTitle) <= 0;
      }
      forall a: Borrowing, b: Borrowing, d: Borrowing | c(a, b) <= 0 && c(b, d) <= 0 ensures c(a, d) <= 0 {
        assert localeCompare(a.bookTitle, b.bookTitle) <= 0 && localeCompare(b.bookTitle, d.bookTitle) <= 0;
      }
    } else if sortBy == "author" {
      forall a: Borrowing, b: Borrowing ensures c(a, b) <= 0 || c(b, a) <= 0 {
        assert localeCompare(a.bookAuthor, b.bookAuthor) <= 0 || localeCompare(b.bookAuthor, a.bookAuthor) <= 0;
      }
      forall a: Borrowing, b: Borrowing, d: Borrowing | c(a, b) <= 0 && c(b, d) <= 0 ensures c(a, d) <= 0 {
        assert localeCompare(a.bookAuthor, b.bookAuthor) <= 0 && localeCompare(b.bookAuthor, d.bookAuthor) <= 0;
      }
    }
  }

  /** Sorting by due date puts the earliest due date first; by borrowing date,
      the most recent loan first. */
  lemma DisplayedDateOrder(bs: seq<Borrowing>, filterStatus: string, sortBy: string,
                           localeCompare: (string, string) -> int, i: int, j: int)
    requires 0 <= i < j < |Displayed(bs, filterStatus, sortBy, localeCompare)|
    ensures var d := Displayed(bs, filterStatus, sortBy, localeCompare);
            && (sortBy == "due_date" ==> d[i].dueDate <= d[j].dueDate)
            && (sortBy == "borrowed_at" ==> d[i].borrowedAt >= d[j].borrowedAt)
  {
    var d := Displayed(bs, filterStatus, sortBy, localeCompare);
    var c := ComparatorFor(sortBy, localeCompare);
    if sortBy == "due_date" || sortBy == "borrowed_at" {
      ComparatorIsTotalPreorder(sortBy, localeCompare);
      SortBySorted(StatusFiltered(bs, filterStatus), c);
      assert c(d[i], d[j]) <= 0;
      StartOfDayOrder(d[i].dueDate, d[j].dueDate);
      StartOfDayOrder(d[j].borrowedAt, d[i].borrowedAt);
    }
  }

  /** Sorting by title or author orders the list by `localeCompare` of that field. */
  lemma DisplayedTextOrder(bs: seq<Borrowing>, filterStatus: string, sortBy: string,
                           localeCompare: (string, string) -> int, i: int, j: int)
    requires IsTotalPreorder(localeCompare)
    requires 0 <= i < j < |Displayed(bs, filterStatus, sortBy, localeCompare)|
    ensures var d := Displayed(bs, filterStatus, sortBy, localeCompare);
            && (sortBy == "title" ==> localeCompare(d[i].bookTitle, d[j].bookTitle) <= 0)
            && (sortBy == "author" ==> localeCompare(d[i].bookAuthor, d[j].bookAuthor) <= 0)
  {
    ComparatorIsTotalPreorder(sortBy, localeCompare);
    SortBySorted(StatusFiltered(bs, filterStatus), ComparatorFor(sortBy, localeCompare));
  }

  /** An unknown sort key leaves the filtered loans in their order. */
  lemma UnknownKeyKeepsOrder(bs: seq<Borrowing>, filterStatus: string, sortBy: string,
                             localeCompare: (string, string) -> int)
    requires sortBy !in {"due_date", "borrowed_at", "title", "author"}
    ensures Displayed(bs, filterStatus, sortBy, localeCompare) == StatusFiltered(bs, filterStatus)
  {
    SortByKeepsSorted(StatusFiltered(bs, filterStatus), ComparatorFor(sortBy, localeCompare));
  }

  // ---------------------------------------------------------------------------
  // Return and renewal

  /** `handleReturn`: the matching loan is returned today. */
  function ReturnLoan(bs: seq<Borrowing>, id: int, today: int): (r: seq<Borrowing>)
    ensures |r| == |bs|
    ensures forall i :: 0 <= i < |bs| && bs[i].id != id ==> r[i] == bs[i]
    ensures forall i :: 0 <= i < |bs| && bs[i].id == id ==>
      r[i] == bs[i].(status := Returned, returnedAt := Some(today))
  {
    seq(|bs|, i requires 0 <= i < |bs| =>
      if bs[i].id == id then bs[i].(status := Returned, returnedAt := Some(today)) else bs[i])
  }

  /** `handleRenew`: the matching loan is due thirty days from today and its
      counter goes up by one; the status stays and the counter is not checked. */
  function RenewLoan(bs: seq<Borrowing>, id: int, today: int): (r: seq<Borrowing>)
    ensures |r| == |bs|
    ensures forall i :: 0 <= i < |bs| && bs[i].id != id ==> r[i] == bs[i]
    ensures forall i :: 0 <= i < |bs| && bs[i].id == id ==>
      r[i] == bs[i].(renewalCount := bs[i].renewalCount + 1, dueDate := today + LoanPeriodDays)
  {
    seq(|bs|, i requires 0 <= i < |bs| =>
      if bs[i].id == id then bs[i].(renewalCount := bs[i].renewalCount + 1, dueDate := today + LoanPeriodDays)
      else bs[i])
  }

  /** Right after a renewal the loan shows thirty days left. */
  lemma RenewedLoanDueInThirtyDays(bs: seq<Borrowing>, id: int, nowMs: int, i: int)
    requires 0 <= i < |bs| && bs[i].id == id
    ensures DaysUntilDue(RenewLoan(bs, id, Today(nowMs))[i].dueDate, nowMs) == LoanPeriodDays
  {
    DaysUntilDueFromToday(nowMs, LoanPeriodDays);
  }

  /** The handler has no limit of its own: a loan renewed twice already goes to three. */
  lemma RenewHasNoCap(b: Borrowing, today: int)
    requires b.renewalCount == UserMaxRenewals
    ensures RenewLoan([b], b.id, today)[0].renewalCount == UserMaxRenewals + 1
  {
  }

  /** "Renouveler" is shown for an active loan renewed fewer than two times. */
  predicate OffersRenew(b: Borrowing) {
    b.renewalCount < UserMaxRenewals && b.status == Active
  }

  /** "Retourner" is shown for every loan not yet returned. */
  predicate OffersReturn(b: Borrowing) {
    b.status != Returned
  }

  predicate WithinRenewalLimit(bs: seq<Borrowing>) {
    forall i :: 0 <= i < |bs| ==> 0 <= bs[i].renewalCount <= UserMaxRenewals
  }

  /** Through the buttons alone the limit of two renewals holds: renewing a
      loan the page offers it for keeps every counter at most two. */
  lemma OfferedRenewalKeepsLimit(bs: seq<Borrowing>, id: int, today: int)
    requires WithinRenewalLimit(bs)
    requires forall i :: 0 <= i < |bs| && bs[i].id == id ==> OffersRenew(bs[i])
    ensures WithinRenewalLimit(RenewLoan(bs, id, today))
  {
  }

  /** A returned loan offers no action. */
  lemma ReturnedOffersNothing(bs: seq<Borrowing>, id: int, today: int, i: int)
    requires 0 <= i < |bs| && bs[i].id == id
    ensures !OffersReturn(ReturnLoan(bs, id, today)[i]) && !OffersRenew(ReturnLoan(bs, id, today)[i])
  {
  }

  /** A loan has a return date exactly when it is returned. */
  predicate ReturnDateMatchesStatus(bs: seq<Borrowing>) {
    forall i :: 0 <= i < |bs| ==> (bs[i].returnedAt.Some? <==> bs[i].status == Returned)
  }

  lemma HandlersKeepReturnDateInvariant(bs: seq<Borrowing>, id: int, today: int)
    requires ReturnDateMatchesStatus(bs)
    ensures ReturnDateMatchesStatus(ReturnLoan(bs, id, today))
    ensures ReturnDateMatchesStatus(RenewLoan(bs, id, today))
  {
  }

  // ---------------------------------------------------------------------------
  // Statistics and the due-date note

  predicate IsActive(b: Borrowing) { b.status.Active? }
  predicate IsOverdue(b: Borrowing) { b.status.Overdue? }
  predicate IsReturned(b: Borrowing) { b.status.Returned? }

  datatype Stats = Stats(total: nat, active: nat, overdue: nat, returned: nat)

  /** `stats`: the three status counts partition the loans. */
  function ComputeStats(bs: seq<Borrowing>): (st: Stats)
    ensures st.total == |bs| && st.active + st.overdue + st.returned == st.total
  {
    FilterPartition3(bs, IsActive, IsOverdue, IsReturned);
    Stats(|bs|, |Filter(bs, IsActive)|, |Filter(bs, IsOverdue)|, |Filter(bs, IsReturned)|)
  }

  /** " (dans N jour(s))" for a loan not yet due, " (N jour(s) de retard)"
      with the absolute value for a late one. */
  function NoteFor(days: int): (note: string)
    ensures |note| > 2
  {
    if days >= 0 then " (dans " + NatToString(days) + " jour" + PluralS(days) + ")"
    else " (" + NatToString(-days) + " jour" + PluralS(-days) + " de retard)"
  }

  /** A late note ends in " de retard)", and "jour" takes its "s" exactly
      when more than one day is counted, in both wordings. */
  lemma NoteForWording(days: int)
    ensures days < 0 <==> EndsWith(NoteFor(days), " de retard)")
    ensures days >= 0 ==> (EndsWith(NoteFor(days), "s)") <==> Abs(days) > 1)
    ensures days < 0 ==> (EndsWith(NoteFor(days), "s de retard)") <==> Abs(days) > 1)
  {
    var note := NoteFor(days);
    var n := |note|;
    var p := PluralS(Abs(days));
    if days >= 0 {
      var head := " (dans " + NatToString(days) + " jour";
      assert note == head + p + ")";
      assert note[n - 1] == ')';
      assert note[n - 2] == if p == "s" then 's' else 'r';
      assert " de retard)"[9] == 'd';
    } else {
      var head := " (" + NatToString(-days) + " jour";
      assert note == head + p + " de retard)";
      assert note[n - 11..] == " de retard)";
      assert note[n - 12] == if p == "s" then 's' else 'r';
    }
  }

  /** A late loan is told apart by the digit right after the parenthesis. */
  lemma NoteForLate(days: int)
    ensures IsDigit(NoteFor(days)[2]) <==> days < 0
  {
    if days < 0 {
      assert NoteFor(days)[2] == NatToString(-days)[0];
    } else {
      assert NoteFor(days)[2] == 'd';
    }
  }

  /** The note determines the day count: different counts never share a note. */
  lemma NoteForInjective(d1: int, d2: int)
    requires NoteFor(d1) == NoteFor(d2)
    ensures d1 == d2
  {
    NoteForLate(d1);
    NoteForLate(d2);
    if d1 >= 0 {
      SoonNoteInjective(d1, d2);
    } else {
      LateNoteInjective(-d1, -d2);
    }
  }

  lemma SoonNoteInjective(m: nat, n: nat)
    requires NoteFor(m) == NoteFor(n)
    ensures m == n
  {
    var x, y := " jour" + PluralS(m) + ")", " jour" + PluralS(n) + ")";
    assert NoteFor(m) == " (dans " + NatToString(m) + x;
    assert NoteFor(n) == " (dans " + NatToString(n) + y;
    NumberInContext(" (dans ", m, x, n, y);
  }

  lemma LateNoteInjective(m: int, n: int)
    requires m > 0 && n > 0 && NoteFor(-m) == NoteFor(-n)
    ensures m == n
  {
    var x, y := " jour" + PluralS(m) + " de retard)", " jour" + PluralS(n) + " de retard)";
    assert NoteFor(-m) == " (" + NatToString(m) + x;
    assert NoteFor(-n) == " (" + NatToString(n) + y;
    NumberInContext(" (", m, x, n, y);
  }

  /** The note after the due date: nothing for a returned loan, the day count
      otherwise. */
  function DueNote(b: Borrowing, nowMs: int): (note: string)
    ensures b.status == Returned <==> note == ""
    ensures b.status != Returned ==> note == NoteFor(DaysUntilDue(b.dueDate, nowMs))
  {
    if b.status.Returned? then "" else NoteFor(DaysUntilDue(b.dueDate, nowMs))
  }

  // ---------------------------------------------------------------------------
  // The page state

  class Page {
    var borrowings: seq<Borrowing>
    var filteredBorrowings: seq<Borrowing>
    var filterStatus: string
    var sortBy: string

    /** The mount effect: both lists start as the loaded loans. */
    constructor (initial: seq<Borrowing>)
      ensures borrowings == initial && filteredBorrowings == initial
      ensures filterStatus == "all" && sortBy == "due_date"
    {
      borrowings := initial;
      filteredBorrowings := initial;
      filterStatus := "all";
      sortBy := "due_date";
    }

    /** The filter and sort effect. `filtered.sort` sorts in place, so when the
        status filter is "all" it reorders the `borrowings` array itself. */
    method ApplyFilterAndSort(localeCompare: (string, string) -> int)
      modifies this
      ensures filteredBorrowings == Displayed(old(borrowings), filterStatus, sortBy, localeCompare)
      ensures borrowings == if filterStatus == "all" then filteredBorrowings else old(borrowings)
      ensures filterStatus == old(filterStatus) && sortBy == old(sortBy)
    {
      var filtered := borrowings;
      if filterStatus != "all" {
        filtered := Filter(filtered, HasStatus(filterStatus));
      }
      filtered := SortBy(filtered, ComparatorFor(sortBy, localeCompare));
      if filterStatus == "all" {
        borrowings := filtered;
      }
      filteredBorrowings := filtered;
    }

    method HandleReturn(id: int, nowMs: int)
      modifies this
      ensures borrowings == ReturnLoan(old(borrowings), id, Today(nowMs))
      ensures filteredBorrowings == old(filteredBorrowings)
      ensures filterStatus == old(filterStatus) && sortBy == old(sortBy)
    {
      borrowings := ReturnLoan(borrowings, id, Today(nowMs));
    }

    method HandleRenew(id: int, nowMs: int)
      modifies this
      ensures borrowings == RenewLoan(old(borrowings), id, Today(nowMs))
      ensures filteredBorrowings == old(filteredBorrowings)
      ensures filterStatus == old(filterStatus) && sortBy == old(sortBy)
    {
      borrowings := RenewLoan(borrowings, id, Today(nowMs));
    }

    function CurrentStats(): Stats
      reads this
    {
      ComputeStats(borrowings)
    }
  }
}
