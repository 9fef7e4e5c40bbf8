/** The user's dashboard: the loans not yet returned, with return and renewal
    and a due-date label. Its return records no return date. */
module Dashboard {
  import opened Text
  import opened Query
  import opened Loans

  datatype Borrowing = Borrowing(
    id: int,
    bookTitle: string,
    bookAuthor: string,
    borrowedAt: int,
    dueDate: int,
    status: UserStatus,
    renewalCount: int)

  predicate NotReturned(b: Borrowing) {
    b.status != Returned
  }

  /** "Mes Emprunts Actuels": the loans whose status is not returned. */
  function CurrentLoans(bs: seq<Borrowing>): seq<Borrowing> {
    Filter(bs, NotReturned)
  }

  /** The view holds exactly the loans not returned, and keeps their order:
      it distributes over concatenation and keeps a list of current loans whole. */
  lemma CurrentLoansSpec(bs: seq<Borrowing>, more: seq<Borrowing>, b: Borrowing)
    ensures b in CurrentLoans(bs) <==> b in bs && b.status != Returned
    ensures CurrentLoans(bs + more) == CurrentLoans(bs) + CurrentLoans(more)
    ensures (forall i :: 0 <= i < |bs| ==> bs[i].status != Returned) ==> CurrentLoans(bs) == bs
  {
    FilterMembership(bs, NotReturned, b);
    FilterAppend(bs, more, NotReturned);
    if forall i :: 0 <= i < |bs| ==> bs[i].status != Returned {
      FilterKeepsAll(bs, NotReturned);
    }
  }

  /** `handleReturn`: only the status of the matching loan changes. */
  function ReturnLoan(bs: seq<Borrowing>, id: int): (r: seq<Borrowing>)
    ensures |r| == |bs|
    ensures forall i :: 0 <= i < |bs| && bs[i].id != id ==> r[i] == bs[i]
    ensures forall i :: 0 <= i < |bs| && bs[i].id == id ==> r[i] == bs[i].(status := Returned)
  {
    seq(|bs|, i requires 0 <= i < |bs| => if bs[i].id == id then bs[i].(status := Returned) else bs[i])
  }

  /** `handleRenew`: the matching loan is due thirty days from today and its
      counter goes up by one, without a check of the counter. */
  function RenewLoan(bs: seq<Borrowing>, id: int, today: int): (r: seq<Borrowing>)
    ensures |r| == |bs|
    ensures forall i :: 0 <= i < |bs| && bs[i].id != id ==> r[i] == bs[i]
    ensures forall i :: 0 <= i < |bs| && bs[i].id == id ==>
      r[i] == bs[i].(renewalCount := bs[i].renewalCount + 1, dueDate := today + LoanPeriodDays)
  {
    seq(|bs|, i requires 0 <= i < |bs| =>
      if bs[i].id == id then bs[i].(renewalCount := bs[i].renewalCount + 1, dueDate := today + LoanPeriodDays)
      else bs[i])
  }

  /** A returned loan leaves the current view and every other current loan stays in it. */
  lemma ReturnLeavesView(bs: seq<Borrowing>, id: int, b: Borrowing)
    ensures b in CurrentLoans(ReturnLoan(bs, id)) ==> b.id != id
    ensures b in CurrentLoans(bs) && b.id != id ==> b in CurrentLoans(ReturnLoan(bs, id))
  {
    var r := ReturnLoan(bs, id);
    FilterMembership(bs, NotReturned, b);
    FilterMembership(r, NotReturned, b);
    if b in bs && b.id != id {
      var i :| 0 <= i < |bs| && bs[i] == b;
      assert r[i] == b;
    }
  }

  /** A renewal keeps the view's members, with only the renewed loan's fields updated. */
  lemma RenewKeepsView(bs: seq<Borrowing>, id: int, today: int)
    ensures |CurrentLoans(RenewLoan(bs, id, today))| == |CurrentLoans(bs)|
    decreases |bs|
  {
    var r := RenewLoan(bs, id, today);
    if bs != [] {
      RenewKeepsView(bs[1..], id, today);
      assert r == [r[0]] + RenewLoan(bs[1..], id, today);
      assert bs == [bs[0]] + bs[1..];
      FilterAppend([r[0]], RenewLoan(bs[1..], id, today), NotReturned);
      FilterAppend([bs[0]], bs[1..], NotReturned);
    }
  }

  /** "Renouveler" is shown for an active loan renewed fewer than two times;
      "Retourner" for every loan of the view. */
  predicate OffersRenew(b: Borrowing) {
    b.renewalCount < UserMaxRenewals && b.status == Active
  }

  predicate OffersReturn(b: Borrowing) {
    NotReturned(b)
  }

  predicate WithinRenewalLimit(bs: seq<Borrowing>) {
    forall i :: 0 <= i < |bs| ==> 0 <= bs[i].renewalCount <= UserMaxRenewals
  }

  /** Through the buttons alone the counters stay at most two. */
  lemma OfferedRenewalKeepsLimit(bs: seq<Borrowing>, id: int, today: int)
    requires WithinRenewalLimit(bs)
    requires forall i :: 0 <= i < |bs| && bs[i].id == id ==> OffersRenew(bs[i])
    ensures WithinRenewalLimit(RenewLoan(bs, id, today))
  {
  }

  /** Right after a renewal the label counts thirty days. */
  lemma RenewedLoanDueInThirtyDays(bs: seq<Borrowing>, id: int, nowMs: int, i: int)
    requires 0 <= i < |bs| && bs[i].id == id
    ensures DaysUntilDue(RenewLoan(bs, id, Today(nowMs))[i].dueDate, nowMs) == LoanPeriodDays
  {
    DaysUntilDueFromToday(nowMs, LoanPeriodDays);
  }

  // ---------------------------------------------------------------------------
  // The due-date label

  const SoonPrefix := " (dans "
  const LatePrefix := " (en retard de "

  /** " (dans N jour(s))" for a loan not yet due, " (en retard de N jour(s))"
      with the absolute value for a late one. */
  function DueLabel(days: int): (text: string)
    ensures |text| >= 2
  {
    if days >= 0 then SoonPrefix + NatToString(days) + " jour" + PluralS(days) + ")"
    else LatePrefix + NatToString(-days) + " jour" + PluralS(-days) + ")"
  }

  /** The word "jour" takes its "s" exactly when more than one day is counted;
      a late loan is told apart from a loan not yet due by its opening words. */
  lemma DueLabelWording(days: int)
    ensures var text := DueLabel(days);
            && (text[|text| - 2] == 's' <==> Abs(days) > 1)
            && (days < 0 <==> |LatePrefix| <= |text| && text[..|LatePrefix|] == LatePrefix)
  {
    var text := DueLabel(days);
    if days >= 0 {
      assert text[2] == 'd';
    }
  }

  /** The third character tells the two wordings apart: 'd' of "dans" or 'e' of "en retard". */
  lemma DueLabelSoon(days: int)
    ensures DueLabel(days)[2] == 'd' <==> days >= 0
  {
    if days >= 0 {
      assert DueLabel(days)[2] == SoonPrefix[2];
    } else {
      assert DueLabel(days)[2] == LatePrefix[2];
    }
  }

  /** The label determines the day count: different counts never share a label. */
  lemma DueLabelInjective(d1: int, d2: int)
    requires DueLabel(d1) == DueLabel(d2)
    ensures d1 == d2
  {
    DueLabelSoon(d1);
    DueLabelSoon(d2);
    if d1 >= 0 {
      SoonLabelInjective(d1, d2);
    } else {
      LateLabelInjective(-d1, -d2);
    }
  }

  lemma SoonLabelInjective(m: nat, n: nat)
    requires DueLabel(m) == DueLabel(n)
    ensures m == n
  {
    var x, y := " jour" + PluralS(m) + ")", " jour" + PluralS(n) + ")";
    assert DueLabel(m) == SoonPrefix + NatToString(m) + x;
    assert DueLabel(n) == SoonPrefix + NatToString(n) + y;
    NumberInContext(SoonPrefix, m, x, n, y);
  }

  lemma LateLabelInjective(m: int, n: int)
    requires m > 0 && n > 0 && DueLabel(-m) == DueLabel(-n)
    ensures m == n
  {
    var x, y := " jour" + PluralS(m) + ")", " jour" + PluralS(n) + ")";
    assert DueLabel(-m) == LatePrefix + NatToString(m) + x;
    assert DueLabel(-n) == LatePrefix + NatToString(n) + y;
    NumberInContext(LatePrefix, m, x, n, y);
  }

  // ---------------------------------------------------------------------------
  // The page state

  class Page {
    var borrowings: seq<Borrowing>

    constructor (initial: seq<Borrowing>)
      ensures borrowings == initial
    {
      borrowings := initial;
    }

    function Current(): seq<Borrowing>
      reads this
    {
      CurrentLoans(borrowings)
    }

    method HandleReturn(id: int)
      modifies this
      ensures borrowings == ReturnLoan(old(borrowings), id)
    {
      borrowings := ReturnLoan(borrowings, id);
    }

    method HandleRenew(id: int, nowMs: int)
      modifies this
      ensures borrowings == RenewLoan(old(borrowings), id, Today(nowMs))
    {
      borrowings := RenewLoan(borrowings, id, Today(nowMs));
    }
  }
}
