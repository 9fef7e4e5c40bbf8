/** The administrator's loan screen: every loan of the library, searchable and
    filterable by status, with forced return and capped renewal. */
module AdminBorrowings {
  import opened Wrappers
  import opened Text
  import opened Query
  import Loans

  datatype Status = Active | Returned | Overdue | Renewed {
    /** The string the record carries and the status dropdown compares with. */
    function Name(): string {
      match this
      case Active => "active"
      case Returned => "returned"
      case Overdue => "overdue"
      case Renewed => "renewed"
    }
  }

  /** A loan as the administrator sees it; dates are day numbers. */
  datatype Borrowing = Borrowing(
    id: int,
    userId: int,
    userName: string,
    userEmail: string,
    studentId: string,
    bookId: int,
    bookTitle: string,
    bookAuthor: string,
    isbn: string,
    borrowDate: int,
    dueDate: int,
    returnDate: Option<int>,
    status: Status,
    renewalCount: int,
    maxRenewals: int,
    notes: Option<string>,
    daysOverdue: Option<int>)

  // ---------------------------------------------------------------------------
  // The filtered view

  /** The search box: the borrower's name, e-mail and student number and the
      book title ignoring case, or the ISBN as typed. */
  predicate MatchesSearch(b: Borrowing, term: string) {
    || ContainsIgnoringCase(b.userName, term)
    || ContainsIgnoringCase(b.userEmail, term)
    || ContainsIgnoringCase(b.studentId, term)
    || ContainsIgnoringCase(b.bookTitle, term)
    || Contains(b.isbn, term)
  }

  /** The status dropdown; "all" lets every status through. */
  predicate MatchesStatus(b: Borrowing, selectedStatus: string) {
    selectedStatus == "all" || b.status.Name() == selectedStatus
  }

  function Matching(term: string, selectedStatus: string): Borrowing -> bool {
    b => MatchesSearch(b, term) && MatchesStatus(b, selectedStatus)
  }

  /** `filteredBorrowings`. */
  function FilteredBorrowings(bs: seq<Borrowing>, term: string, selectedStatus: string): seq<Borrowing> {
    Filter(bs, Matching(term, selectedStatus))
  }

  /** A loan is shown exactly when it matches the search and the status filter;
      the shown loans keep their order and multiplicity. */
  lemma FilteredBorrowingsSpec(bs: seq<Borrowing>, term: string, selectedStatus: string, b: Borrowing)
    ensures b in FilteredBorrowings(bs, term, selectedStatus) <==>
            b in bs && MatchesSearch(b, term) && MatchesStatus(b, selectedStatus)
    ensures multiset(FilteredBorrowings(bs, term, selectedStatus))[b] ==
            if MatchesSearch(b, term) && MatchesStatus(b, selectedStatus) then multiset(bs)[b] else 0
  {
    FilterMembership(bs, Matching(term, selectedStatus), b);
    FilterMultiplicity(bs, Matching(term, selectedStatus), b);
  }

  /** With an empty search and "all" statuses the whole list is shown. */
  lemma UnfilteredShowsAll(bs: seq<Borrowing>)
    ensures FilteredBorrowings(bs, "", "all") == bs
  {
    forall k | 0 <= k < |bs| ensures Matching("", "all")(bs[k]) {
      EmptyIsContainedIgnoringCase(bs[k].userName);
    }
    FilterKeepsAll(bs, Matching("", "all"));
  }

  // ---------------------------------------------------------------------------
  // Statistics

  predicate IsCurrent(b: Borrowing) { b.status == Active || b.status == Renewed }
  predicate IsOverdue(b: Borrowing) { b.status == Overdue }
  predicate IsReturned(b: Borrowing) { b.status == Returned }

  datatype Stats = Stats(totalBorrowings: nat, activeBorrowings: nat, overdueBorrowings: nat, returnedBorrowings: nat)

  /** `stats`: the three counters (renewed loans count as active) partition the list. */
  function ComputeStats(bs: seq<Borrowing>): (st: Stats)
    ensures st.totalBorrowings == |bs|
    ensures st.activeBorrowings + st.overdueBorrowings + st.returnedBorrowings == st.totalBorrowings
  {
    FilterPartition3(bs, IsCurrent, IsOverdue, IsReturned);
    Stats(|bs|, |Filter(bs, IsCurrent)|, |Filter(bs, IsOverdue)|, |Filter(bs, IsReturned)|)
  }

  // ---------------------------------------------------------------------------
  // Return and renewal

  /** The record `confirmReturn` writes for the selected loan. */
  function ReturnOne(b: Borrowing, id: int, today: int): Borrowing {
    if b.id == id then b.(status := Returned, returnDate := Some(today)) else b
  }

  /** `borrowings.map(...)` in `confirmReturn`. */
  function ReturnLoan(bs: seq<Borrowing>, id: int, today: int): (r: seq<Borrowing>)
    ensures |r| == |bs|
    ensures forall i :: 0 <= i < |bs| && bs[i].id != id ==> r[i] == bs[i]
    ensures forall i :: 0 <= i < |bs| && bs[i].id == id ==>
      r[i] == bs[i].(status := Returned, returnDate := Some(today))
  {
    seq(|bs|, i requires 0 <= i < |bs| => ReturnOne(bs[i], id, today))
  }

  /** The record `handleRenewal` writes: only under the cap, and then the loan
      is marked renewed and due thirty days after its previous due date. */
  function RenewOne(b: Borrowing, id: int): Borrowing {
    if b.id == id && b.renewalCount < b.maxRenewals then
      b.(status := Renewed, renewalCount := b.renewalCount + 1, dueDate := b.dueDate + Loans.LoanPeriodDays)
    else b
  }

  /** `borrowings.map(...)` in `handleRenewal`. */
  function RenewLoan(bs: seq<Borrowing>, id: int): (r: seq<Borrowing>)
    ensures |r| == |bs|
    ensures forall i :: 0 <= i < |bs| && bs[i].id != id ==> r[i] == bs[i]
    ensures forall i :: 0 <= i < |bs| && bs[i].id == id && bs[i].renewalCount >= bs[i].maxRenewals ==>
      r[i] == bs[i]
    ensures forall i :: 0 <= i < |bs| && bs[i].id == id && bs[i].renewalCount < bs[i].maxRenewals ==>
      r[i] == bs[i].(status := Renewed, renewalCount := bs[i].renewalCount + 1,
                     dueDate := bs[i].dueDate + Loans.LoanPeriodDays)
  {
    seq(|bs|, i requires 0 <= i < |bs| => RenewOne(bs[i], id))
  }

  /** No loan has been renewed more often than it may be. */
  predicate WithinRenewalCap(bs: seq<Borrowing>) {
    forall i :: 0 <= i < |bs| ==> 0 <= bs[i].renewalCount <= bs[i].maxRenewals
  }

  /** Renewal never takes a loan past its cap; a refused renewal changes nothing. */
  lemma RenewKeepsCap(bs: seq<Borrowing>, id: int)
    requires WithinRenewalCap(bs)
    ensures WithinRenewalCap(RenewLoan(bs, id))
    ensures forall i :: 0 <= i < |bs| ==>
      RenewLoan(bs, id)[i].renewalCount == bs[i].renewalCount ||
      RenewLoan(bs, id)[i].renewalCount == bs[i].renewalCount + 1 <= bs[i].maxRenewals
  {
  }

  /** Returning keeps the cap, since only status and return date change. */
  lemma ReturnKeepsCap(bs: seq<Borrowing>, id: int, today: int)
    requires WithinRenewalCap(bs)
    ensures WithinRenewalCap(ReturnLoan(bs, id, today))
  {
  }

  /** Renewing n times in a row renews min(n, cap - count) times. */
  function RenewTimes(bs: seq<Borrowing>, id: int, n: nat): seq<Borrowing>
    decreases n
  {
    if n == 0 then bs else RenewLoan(RenewTimes(bs, id, n - 1), id)
  }

  lemma {:induction false} RenewTimesCount(bs: seq<Borrowing>, id: int, n: nat, i: int)
    requires 0 <= i < |bs| && bs[i].id == id && 0 <= bs[i].renewalCount <= bs[i].maxRenewals
    ensures |RenewTimes(bs, id, n)| == |bs|
    ensures RenewTimes(bs, id, n)[i].id == id
    ensures RenewTimes(bs, id, n)[i].maxRenewals == bs[i].maxRenewals
    ensures RenewTimes(bs, id, n)[i].renewalCount ==
      if bs[i].renewalCount + n <= bs[i].maxRenewals then bs[i].renewalCount + n else bs[i].maxRenewals
  {
    if n > 0 {
      RenewTimesCount(bs, id, n - 1, i);
    }
  }

  /** The record invariant of the data model: a loan has a return date exactly
      when it is returned. */
  predicate ReturnDateMatchesStatus(bs: seq<Borrowing>) {
    forall i :: 0 <= i < |bs| ==> (bs[i].returnDate.Some? <==> bs[i].status == Returned)
  }

  lemma ReturnKeepsReturnDateInvariant(bs: seq<Borrowing>, id: int, today: int)
    requires ReturnDateMatchesStatus(bs)
    ensures ReturnDateMatchesStatus(ReturnLoan(bs, id, today))
  {
  }

  /** Renewal keeps the invariant when it is invoked on a loan the screen offers
      it for; the handler itself does not look at the status. */
  lemma RenewKeepsReturnDateInvariant(bs: seq<Borrowing>, id: int)
    requires ReturnDateMatchesStatus(bs)
    requires forall i :: 0 <= i < |bs| && bs[i].id == id ==> OffersRenew(bs[i])
    ensures ReturnDateMatchesStatus(RenewLoan(bs, id))
  {
  }

  /** Called directly on a returned loan under its cap, the handler would mark
      it renewed while it keeps its return date. */
  lemma RenewIgnoresStatus(b: Borrowing)
    requires b.status == Returned && b.returnDate.Some? && b.renewalCount < b.maxRenewals
    ensures RenewLoan([b], b.id)[0].status == Renewed
    ensures RenewLoan([b], b.id)[0].returnDate.Some?
    ensures !ReturnDateMatchesStatus(RenewLoan([b], b.id))
  {
  }

  // ---------------------------------------------------------------------------
  // What the table row offers

  /** "Forcer le retour" is offered for active and renewed loans. */
  predicate OffersReturn(b: Borrowing) {
    b.status == Active || b.status == Renewed
  }

  /** "Renouveler" is offered beside it while the loan is under its cap. */
  predicate OffersRenew(b: Borrowing) {
    OffersReturn(b) && b.renewalCount < b.maxRenewals
  }

  /** The due-soon highlight. */
  predicate IsNearDue(b: Borrowing, nowMs: int) {
    var days := Loans.DaysUntilDue(b.dueDate, nowMs);
    days <= 3 && days > 0 && b.status != Returned
  }

  /** A loan is highlighted as due soon exactly during the three days before
      its due date begins. */
  lemma NearDueWindow(b: Borrowing, nowMs: int)
    ensures IsNearDue(b, nowMs) <==>
            b.status != Returned && Loans.StartOfDay(b.dueDate) - 3 * Loans.MsPerDay <= nowMs < Loans.StartOfDay(b.dueDate)
  {
    var days := Loans.DaysUntilDue(b.dueDate, nowMs);
    var left := Loans.StartOfDay(b.dueDate) - nowMs;
    if 1 <= days <= 3 {
      assert 0 < left <= 3 * Loans.MsPerDay;
    }
    if 0 < left <= 3 * Loans.MsPerDay {
      assert days > 0 by {
        assert left <= days * Loans.MsPerDay;
      }
      assert days <= 3 by {
        assert (days - 1) * Loans.MsPerDay < 3 * Loans.MsPerDay;
      }
    }
  }

  /** A renewal the screen offers always goes through and stays within the cap. */
  lemma OfferedRenewalSucceeds(bs: seq<Borrowing>, i: int)
    requires 0 <= i < |bs| && OffersRenew(bs[i])
    ensures RenewLoan(bs, bs[i].id)[i].renewalCount == bs[i].renewalCount + 1
    ensures RenewLoan(bs, bs[i].id)[i].renewalCount <= bs[i].maxRenewals
    ensures RenewLoan(bs, bs[i].id)[i].status == Renewed
  {
  }

  /** After a return the loan offers neither return nor renewal. */
  lemma ReturnedOffersNothing(bs: seq<Borrowing>, id: int, today: int, i: int)
    requires 0 <= i < |bs| && bs[i].id == id
    ensures !OffersReturn(ReturnLoan(bs, id, today)[i])
    ensures !OffersRenew(ReturnLoan(bs, id, today)[i])
  {
  }

  /** A loan at its cap is not offered renewal, and renewing it would change nothing. */
  lemma CapReachedRefused(bs: seq<Borrowing>, i: int)
    requires 0 <= i < |bs| && bs[i].renewalCount >= bs[i].maxRenewals
    ensures !OffersRenew(bs[i])
    ensures RenewLoan(bs, bs[i].id)[i] == bs[i]
  {
  }

  // ---------------------------------------------------------------------------
  // The page state

  class Page {
    var borrowings: seq<Borrowing>
    var searchTerm: string
    var selectedStatus: string
    var showReturnModal: bool
    var selectedBorrowingId: Option<int>

    constructor (initial: seq<Borrowing>)
      ensures borrowings == initial && searchTerm == "" && selectedStatus == "all"
      ensures !showReturnModal && selectedBorrowingId == None
    {
      borrowings := initial;
      searchTerm := "";
      selectedStatus := "all";
      showReturnModal := false;
      selectedBorrowingId := None;
    }

    function Filtered(): seq<Borrowing>
      reads this
    {
      FilteredBorrowings(borrowings, searchTerm, selectedStatus)
    }

    function CurrentStats(): Stats
      reads this
    {
      ComputeStats(borrowings)
    }

    /** `handleForceReturn`: remembers the loan and opens the confirmation. */
    method HandleForceReturn(id: int)
      modifies this
      ensures selectedBorrowingId == Some(id) && showReturnModal
      ensures borrowings == old(borrowings) && searchTerm == old(searchTerm)
      ensures selectedStatus == old(selectedStatus)
    {
      selectedBorrowingId := Some(id);
      showReturnModal := true;
    }

    /** "Annuler" in the confirmation: the dialog closes and the selection stays. */
    method CancelReturn()
      modifies this
      ensures !showReturnModal && selectedBorrowingId == old(selectedBorrowingId)
      ensures borrowings == old(borrowings) && searchTerm == old(searchTerm)
      ensures selectedStatus == old(selectedStatus)
    {
      showReturnModal := false;
    }

    /** `confirmReturn`: marks the selected loan returned today and closes the
        confirmation; without a (truthy) selection nothing happens. */
    method ConfirmReturn(nowMs: int)
      modifies this
      ensures IsSelected(old(selectedBorrowingId)) ==>
        && borrowings == ReturnLoan(old(borrowings), old(selectedBorrowingId).value, Loans.Today(nowMs))
        && !showReturnModal && selectedBorrowingId == None
      ensures !IsSelected(old(selectedBorrowingId)) ==>
        && borrowings == old(borrowings) && showReturnModal == old(showReturnModal)
        && selectedBorrowingId == old(selectedBorrowingId)
      ensures searchTerm == old(searchTerm) && selectedStatus == old(selectedStatus)
      ensures WithinRenewalCap(old(borrowings)) ==> WithinRenewalCap(borrowings)
    {
      if IsSelected(selectedBorrowingId) {
        if WithinRenewalCap(borrowings) {
          ReturnKeepsCap(borrowings, selectedBorrowingId.value, Loans.Today(nowMs));
        }
        borrowings := ReturnLoan(borrowings, selectedBorrowingId.value, Loans.Today(nowMs));
        showReturnModal := false;
        selectedBorrowingId := None;
      }
    }

    /** `handleRenewal`. */
    method HandleRenewal(id: int)
      modifies this
      ensures borrowings == RenewLoan(old(borrowings), id)
      ensures WithinRenewalCap(old(borrowings)) ==> WithinRenewalCap(borrowings)
      ensures searchTerm == old(searchTerm) && selectedStatus == old(selectedStatus)
      ensures showReturnModal == old(showReturnModal) && selectedBorrowingId == old(selectedBorrowingId)
    {
      if WithinRenewalCap(borrowings) {
        RenewKeepsCap(borrowings, id);
      }
      borrowings := RenewLoan(borrowings, id);
    }
  }
}
